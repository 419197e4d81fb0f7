/** Compiled name filters and the splitting of metrics into cost and observability
    (app/domain/filter/filter_checker.go, app/domain/metric_filter.go). */
module Filter {
  import opened Text
  import opened Metrics

  datatype MatchType = Exact | Prefix | Suffix | Containing | Regex | Unknown

  datatype FilterEntry = FilterEntry(pattern: string, match': MatchType)

  /** Regular expressions are a library's: which patterns compile, and what they match. */
  datatype Regexps = Regexps(compiles: string -> bool, matches: (string, string) -> bool)

  datatype FilterChecker = FilterChecker(
    exact: set<string>, prefixes: seq<string>, suffixes: seq<string>, infixes: seq<string>, regexes: seq<string>)

  /** What one entry says about a name. */
  predicate EntryMatches(f: FilterEntry, value: string, rx: Regexps) {
    match f.match'
    case Exact => value == f.pattern
    case Prefix => f.pattern <= value
    case Suffix => HasSuffix(value, f.pattern)
    case Containing => Contains(value, f.pattern)
    case Regex => rx.matches(f.pattern, value)
    case Unknown => false
  }

  predicate EntryCompiles(f: FilterEntry, rx: Regexps) {
    f.match' != Unknown && (f.match' == Regex ==> rx.compiles(f.pattern))
  }

  /** The reference meaning of a filter: some entry matches, or there is none. */
  ghost predicate Accepts(filters: seq<FilterEntry>, value: string, rx: Regexps) {
    filters == [] || exists f :: f in filters && EntryMatches(f, value, rx)
  }

  /** The checker, sorted by kind of match, stands for the entries. */
  ghost predicate Represents(chk: FilterChecker, filters: seq<FilterEntry>) {
    && (forall p :: p in chk.exact <==> FilterEntry(p, Exact) in filters)
    && (forall p :: p in chk.prefixes <==> FilterEntry(p, Prefix) in filters)
    && (forall p :: p in chk.suffixes <==> FilterEntry(p, Suffix) in filters)
    && (forall p :: p in chk.infixes <==> FilterEntry(p, Containing) in filters)
    && (forall p :: p in chk.regexes <==> FilterEntry(p, Regex) in filters)
    && (forall f :: f in filters ==> f.match' != Unknown)
  }

  datatype Compiled = Error | Checker(chk: Option<FilterChecker>)

  function WithEntry(chk: FilterChecker, f: FilterEntry): FilterChecker {
    match f.match'
    case Exact => chk.(exact := chk.exact + {f.pattern})
    case Prefix => chk.(prefixes := chk.prefixes + [f.pattern])
    case Suffix => chk.(suffixes := chk.suffixes + [f.pattern])
    case Containing => chk.(infixes := chk.infixes + [f.pattern])
    case Regex => chk.(regexes := chk.regexes + [f.pattern])
    case Unknown => chk
  }

  lemma WithEntryRepresents(chk: FilterChecker, filters: seq<FilterEntry>, f: FilterEntry)
    requires Represents(chk, filters) && f.match' != Unknown
    ensures Represents(WithEntry(chk, f), filters + [f])
  {
    assert forall g :: g in filters + [f] <==> g in filters || g == f;
  }

  /** One entry added to the checker; none when it does not compile. */
  method AddEntry(chk: FilterChecker, f: FilterEntry, rx: Regexps) returns (r: Option<FilterChecker>)
    ensures r.Some? <==> EntryCompiles(f, rx)
    ensures r.Some? ==> r.value == WithEntry(chk, f)
  {
    match f.match' {
      case Exact => r := Some(chk.(exact := chk.exact + {f.pattern}));
      case Prefix => r := Some(chk.(prefixes := chk.prefixes + [f.pattern]));
      case Suffix => r := Some(chk.(suffixes := chk.suffixes + [f.pattern]));
      case Containing => r := Some(chk.(infixes := chk.infixes + [f.pattern]));
      case Regex =>
        if rx.compiles(f.pattern) {
          r := Some(chk.(regexes := chk.regexes + [f.pattern]));
        } else {
          r := None;
        }
      case Unknown => r := None;
    }
  }

  /** NewFilterChecker: no checker for no entries, an error exactly for an entry that
      does not compile. */
  method NewFilterChecker(filters: seq<FilterEntry>, rx: Regexps) returns (r: Compiled)
    ensures r.Error? <==> exists f :: f in filters && !EntryCompiles(f, rx)
    ensures r.Error? <==>
              exists f :: f in filters && (f.match' == Unknown || (f.match' == Regex && !rx.compiles(f.pattern)))
    ensures r.Checker? ==> (r.chk.None? <==> filters == [])
    ensures r.Checker? && r.chk.Some? ==> Represents(r.chk.value, filters)
  {
    if |filters| == 0 {
      return Checker(None);
    }
    var chk := FilterChecker({}, [], [], [], []);
    var i := 0;
    while i < |filters|
      invariant i <= |filters|
      invariant Represents(chk, filters[..i])
      invariant forall f :: f in filters[..i] ==> EntryCompiles(f, rx)
    {
      assert filters[..i + 1] == filters[..i] + [filters[i]];
      var added := AddEntry(chk, filters[i], rx);
      if added.None? {
        assert filters[i] in filters;
        return Error;
      }
      WithEntryRepresents(chk, filters[..i], filters[i]);
      chk := added.value;
      i := i + 1;
    }
    assert filters[..i] == filters;
    r := Checker(Some(chk));
  }

  /** What the compiled checker decides, kind by kind. */
  ghost predicate Decides(chk: FilterChecker, value: string, rx: Regexps) {
    || value in chk.exact
    || (exists p :: p in chk.prefixes && p <= value)
    || (exists p :: p in chk.suffixes && HasSuffix(value, p))
    || (exists p :: p in chk.infixes && Contains(value, p))
    || (exists p :: p in chk.regexes && rx.matches(p, value))
  }

  lemma DecidesIsAccepts(chk: FilterChecker, filters: seq<FilterEntry>, value: string, rx: Regexps)
    requires Represents(chk, filters) && filters != []
    ensures Decides(chk, value, rx) <==> Accepts(filters, value, rx)
  {
    if f :| f in filters && EntryMatches(f, value, rx) {
      assert f == FilterEntry(f.pattern, f.match');
    }
    if value in chk.exact { assert EntryMatches(FilterEntry(value, Exact), value, rx); }
    if p :| p in chk.prefixes && p <= value { assert EntryMatches(FilterEntry(p, Prefix), value, rx); }
    if p :| p in chk.suffixes && HasSuffix(value, p) { assert EntryMatches(FilterEntry(p, Suffix), value, rx); }
    if p :| p in chk.infixes && Contains(value, p) { assert EntryMatches(FilterEntry(p, Containing), value, rx); }
    if p :| p in chk.regexes && rx.matches(p, value) { assert EntryMatches(FilterEntry(p, Regex), value, rx); }
  }

  /** FilterChecker.Test: each kind of match in turn, stopping at the first hit. */
  method Test(chk: Option<FilterChecker>, value: string, rx: Regexps) returns (found: bool)
    ensures found <==> chk.None? || Decides(chk.value, value, rx)
  {
    if chk.None? {
      return true;
    }
    var c := chk.value;
    if value in c.exact {
      return true;
    }
    found := AnyOf(c.prefixes, p => p <= value);
    if found { return; }
    found := AnyOf(c.suffixes, p => HasSuffix(value, p));
    if found { return; }
    found := AnyOf(c.infixes, p => Contains(value, p));
    if found { return; }
    found := AnyOf(c.regexes, p => rx.matches(p, value));
  }

  method AnyOf(patterns: seq<string>, hit: string -> bool) returns (found: bool)
    ensures found <==> exists p :: p in patterns && hit(p)
  {
    var i := 0;
    while i < |patterns|
      invariant i <= |patterns|
      invariant forall p :: p in patterns[..i] ==> !hit(p)
    {
      if hit(patterns[i]) {
        return true;
      }
      assert patterns[..i + 1] == patterns[..i] + [patterns[i]];
      i := i + 1;
    }
    assert patterns[..i] == patterns;
    found := false;
  }

  /** Reordering or repeating entries changes no decision. */
  lemma OrderAndRepetitionDoNotMatter(
      chk: FilterChecker, filters: seq<FilterEntry>, chk': FilterChecker, filters': seq<FilterEntry>,
      value: string, rx: Regexps)
    requires Represents(chk, filters) && Represents(chk', filters')
    requires filters != [] && forall f :: f in filters <==> f in filters'
    ensures Decides(chk, value, rx) <==> Decides(chk', value, rx)
  {
    assert filters[0] in filters;
    DecidesIsAccepts(chk, filters, value, rx);
    DecidesIsAccepts(chk', filters', value, rx);
  }

  // ---------------------------------------------------------- metric filter

  /** The four filters of a configuration; no list of entries is no filter. */
  datatype Config = Config(
    cost: seq<FilterEntry>, observability: seq<FilterEntry>,
    costLabels: seq<FilterEntry>, observabilityLabels: seq<FilterEntry>)

  datatype MetricFilter = MetricFilter(
    cost: Option<FilterChecker>, observability: Option<FilterChecker>,
    costLabels: Option<FilterChecker>, observabilityLabels: Option<FilterChecker>, rx: Regexps)

  /** The names a metric filter passes; a missing checker passes all. */
  ghost predicate Passes(chk: Option<FilterChecker>, value: string, rx: Regexps) {
    chk.None? || Decides(chk.value, value, rx)
  }

  /** The filter passes just the names its configuration accepts. */
  ghost predicate Implements(mf: MetricFilter, cfg: Config) {
    forall name ::
      && (Passes(mf.cost, name, mf.rx) <==> Accepts(cfg.cost, name, mf.rx))
      && (Passes(mf.observability, name, mf.rx) <==> Accepts(cfg.observability, name, mf.rx))
      && (Passes(mf.costLabels, name, mf.rx) <==> Accepts(cfg.costLabels, name, mf.rx))
      && (Passes(mf.observabilityLabels, name, mf.rx) <==> Accepts(cfg.observabilityLabels, name, mf.rx))
  }

  ghost predicate AllCompile(filters: seq<FilterEntry>, rx: Regexps) {
    forall f :: f in filters ==> EntryCompiles(f, rx)
  }

  lemma CheckerPasses(chk: Option<FilterChecker>, filters: seq<FilterEntry>, rx: Regexps)
    requires chk.None? <==> filters == []
    requires chk.Some? ==> Represents(chk.value, filters)
    ensures forall name :: Passes(chk, name, rx) <==> Accepts(filters, name, rx)
  {
    forall name | chk.Some?
      ensures Passes(chk, name, rx) <==> Accepts(filters, name, rx)
    {
      DecidesIsAccepts(chk.value, filters, name, rx);
    }
  }

  /** One list of entries compiled; no list is no filter. */
  method CompileList(filters: seq<FilterEntry>, rx: Regexps) returns (ok: bool, chk: Option<FilterChecker>)
    ensures ok <==> AllCompile(filters, rx)
    ensures ok ==> (chk.None? <==> filters == [])
    ensures ok ==> forall name :: Passes(chk, name, rx) <==> Accepts(filters, name, rx)
  {
    ok, chk := true, None;
    if |filters| != 0 {
      var r := NewFilterChecker(filters, rx);
      match r {
        case Error => ok := false;
        case Checker(c) =>
          chk := c;
          CheckerPasses(chk, filters, rx);
      }
    }
  }

  /** NewMetricFilter: fails exactly when some entry of some list does not compile;
      gives no filter exactly when there are no entries at all. */
  method NewMetricFilter(cfg: Config, rx: Regexps) returns (ok: bool, mf: Option<MetricFilter>)
    ensures ok <==> AllCompile(cfg.cost, rx) && AllCompile(cfg.observability, rx)
                    && AllCompile(cfg.costLabels, rx) && AllCompile(cfg.observabilityLabels, rx)
    ensures ok ==> (mf.None? <==> cfg == Config([], [], [], []))
    ensures ok && mf.Some? ==> mf.value.rx == rx && Implements(mf.value, cfg)
  {
    mf := None;
    var cost, observability, costLabels, observabilityLabels;
    ok, cost := CompileList(cfg.cost, rx);
    if !ok { return; }
    ok, costLabels := CompileList(cfg.costLabels, rx);
    if !ok { return; }
    ok, observability := CompileList(cfg.observability, rx);
    if !ok { return; }
    ok, observabilityLabels := CompileList(cfg.observabilityLabels, rx);
    if !ok { return; }
    if cost.Some? || costLabels.Some? || observability.Some? || observabilityLabels.Some? {
      mf := Some(MetricFilter(cost, observability, costLabels, observabilityLabels, rx));
    }
  }

  ghost function Kept(labels: Labels, chk: Option<FilterChecker>, rx: Regexps): Labels {
    map k | k in labels && Passes(chk, k, rx) :: labels[k]
  }

  /** The metrics that pass by name, in order, with the labels that pass. */
  ghost function Selected(
      ms: seq<Metric>, names: Option<FilterChecker>, labels: Option<FilterChecker>, rx: Regexps): seq<Metric>
    decreases |ms|
  {
    if ms == [] then []
    else
      var last := ms[|ms| - 1];
      Selected(ms[..|ms| - 1], names, labels, rx)
      + if Passes(names, last.metricName, rx) then [last.(labels := Kept(last.labels, labels, rx))] else []
  }

  ghost function Dropped(ms: seq<Metric>, f: MetricFilter): seq<Metric>
    decreases |ms|
  {
    if ms == [] then []
    else
      var last := ms[|ms| - 1];
      Dropped(ms[..|ms| - 1], f)
      + if Passes(f.cost, last.metricName, f.rx) || Passes(f.observability, last.metricName, f.rx) then [] else [last]
  }

  // ------------------------------------------------- metrics and their maps

  /** A label map as an object that metrics can share and a filter might write to. */
  class LabelMap {
    var entries: Labels

    constructor ()
      ensures entries == map[]
    {
      entries := map[];
    }
  }

  /** A metric that refers to its label map; the labels of `fields` are not used. */
  datatype Held = Held(fields: Metric, labels: LabelMap)

  function Value(h: Held): Metric
    reads h.labels
  {
    h.fields.(labels := h.labels.entries)
  }

  function Maps(ms: seq<Held>): set<LabelMap> {
    set h | h in ms :: h.labels
  }

  ghost function Values(ms: seq<Held>): seq<Metric>
    reads Maps(ms)
    decreases |ms|
  {
    if ms == [] then []
    else
      assert ms == ms[..|ms| - 1] + [ms[|ms| - 1]];
      Values(ms[..|ms| - 1]) + [Value(ms[|ms| - 1])]
  }

  lemma ValuesAppend(ms: seq<Held>, h: Held)
    ensures Values(ms + [h]) == Values(ms) + [Value(h)]
  {
    assert (ms + [h])[..|ms|] == ms;
  }

  /** The label map itself without a filter, otherwise a new one with the labels that pass. */
  method KeepLabels(labels: LabelMap, chk: Option<FilterChecker>, rx: Regexps) returns (kept: LabelMap)
    ensures kept.entries == Kept(labels.entries, chk, rx)
    ensures if chk.None? then kept == labels else fresh(kept)
  {
    if chk.None? {
      return labels;
    }
    kept := new LabelMap();
    var from := labels.entries;
    var todo := from.Keys;
    while todo != {}
      invariant fresh(kept) && todo <= from.Keys
      invariant kept.entries == Kept(from - todo, chk, rx)
      decreases todo
    {
      var k :| k in todo;
      todo := todo - {k};
      var passes := Test(chk, k, rx);
      if passes {
        kept.entries := kept.entries[k := from[k]];
      }
    }
    assert from - todo == from;
  }

  /** The metrics a name filter passes, in order, and those neither does. */
  ghost function Passing(ms: seq<Held>, names: Option<FilterChecker>, rx: Regexps): seq<Held>
    decreases |ms|
  {
    if ms == [] then []
    else
      var last := ms[|ms| - 1];
      Passing(ms[..|ms| - 1], names, rx) + if Passes(names, last.fields.metricName, rx) then [last] else []
  }

  ghost function Failing(ms: seq<Held>, f: MetricFilter): seq<Held>
    decreases |ms|
  {
    if ms == [] then []
    else
      var last := ms[|ms| - 1];
      Failing(ms[..|ms| - 1], f)
      + if Passes(f.cost, last.fields.metricName, f.rx) || Passes(f.observability, last.fields.metricName, f.rx) then []
        else [last]
  }

  /** `out` is `from` with the labels that pass. */
  ghost predicate AreRouted(out: seq<Held>, from: seq<Held>, labels: Option<FilterChecker>, rx: Regexps)
    reads Maps(out), Maps(from)
  {
    && |out| == |from|
    && forall i :: 0 <= i < |out| ==>
         out[i].fields == from[i].fields && out[i].labels.entries == Kept(from[i].labels.entries, labels, rx)
  }

  lemma {:induction false} RoutedAreSelected(
      out: seq<Held>, ms: seq<Held>, names: Option<FilterChecker>, labels: Option<FilterChecker>, rx: Regexps)
    requires AreRouted(out, Passing(ms, names, rx), labels, rx)
    ensures Values(out) == Selected(Values(ms), names, labels, rx)
    decreases |ms|
  {
    if ms != [] {
      var front, last := ms[..|ms| - 1], ms[|ms| - 1];
      if Passes(names, last.fields.metricName, rx) {
        var n := |out| - 1;
        var passing := Passing(ms, names, rx);
        assert passing[..n] == Passing(front, names, rx) && passing[n] == last;
        assert out == out[..n] + [out[n]];
        assert AreRouted(out[..n], passing[..n], labels, rx);
        RoutedAreSelected(out[..n], front, names, labels, rx);
      } else {
        RoutedAreSelected(out, front, names, labels, rx);
      }
    }
  }

  lemma {:induction false} FailingAreDropped(ms: seq<Held>, f: MetricFilter)
    ensures Values(Failing(ms, f)) == Dropped(Values(ms), f)
    decreases |ms|
  {
    if ms != [] {
      var front, last := ms[..|ms| - 1], ms[|ms| - 1];
      FailingAreDropped(front, f);
      if Passes(f.cost, last.fields.metricName, f.rx) || Passes(f.observability, last.fields.metricName, f.rx) {
        assert Failing(ms, f) == Failing(front, f);
      } else {
        ValuesAppend(Failing(front, f), last);
      }
    }
  }

  /** The maps of an output: the inputs' own without a label filter, otherwise new ones. */
  ghost predicate OwnMaps(out: seq<Held>, labels: Option<FilterChecker>, inputs: set<LabelMap>) {
    forall h :: h in out ==> if labels.None? then h.labels in inputs else h.labels !in inputs
  }

  /** So for both outputs, and with any label filter they share no map. */
  ghost predicate AreOwnMaps(cost: seq<Held>, observability: seq<Held>, f: MetricFilter, inputs: set<LabelMap>) {
    && OwnMaps(cost, f.costLabels, inputs)
    && OwnMaps(observability, f.observabilityLabels, inputs)
    && (f.costLabels.Some? || f.observabilityLabels.Some? ==>
          forall h, g :: h in cost && g in observability ==> h.labels != g.labels)
  }

  lemma RoutedAppend(
      out: seq<Held>, from: seq<Held>, h: Held, g: Held, labels: Option<FilterChecker>, rx: Regexps)
    requires AreRouted(out, from, labels, rx)
    requires h.fields == g.fields && h.labels.entries == Kept(g.labels.entries, labels, rx)
    ensures AreRouted(out + [h], from + [g], labels, rx)
  {
  }

  /** `out` is `done` with what one filter passes of `metric` appended. */
  method Route(
      metric: Held, names: Option<FilterChecker>, labels: Option<FilterChecker>, rx: Regexps,
      done: seq<Held>, ghost from: seq<Held>)
    returns (matched: bool, out: seq<Held>)
    requires AreRouted(done, from, labels, rx)
    ensures matched == Passes(names, metric.fields.metricName, rx)
    ensures AreRouted(out, if matched then from + [metric] else from, labels, rx)
    ensures done <= out
    ensures forall h :: h in out ==> h in done || if labels.None? then h.labels == metric.labels else fresh(h.labels)
  {
    out := done;
    matched := Test(names, metric.fields.metricName, rx);
    if matched {
      var kept := KeepLabels(metric.labels, labels, rx);
      var routed := metric.(labels := kept);
      RoutedAppend(done, from, routed, metric, labels, rx);
      out := done + [routed];
    }
  }

  lemma PassingNext(ms: seq<Held>, i: nat, names: Option<FilterChecker>, rx: Regexps)
    requires i < |ms|
    ensures var done := Passing(ms[..i], names, rx);
            Passing(ms[..i + 1], names, rx)
            == if Passes(names, ms[i].fields.metricName, rx) then done + [ms[i]] else done
  {
    assert ms[..i + 1][..i] == ms[..i];
  }

  lemma FailingNext(ms: seq<Held>, i: nat, f: MetricFilter)
    requires i < |ms|
    ensures var done := Failing(ms[..i], f);
            var name := ms[i].fields.metricName;
            Failing(ms[..i + 1], f)
            == if Passes(f.cost, name, f.rx) || Passes(f.observability, name, f.rx) then done else done + [ms[i]]
  {
    assert ms[..i + 1][..i] == ms[..i];
  }

  ghost function With(from: seq<Held>, metric: Held, matched: bool): seq<Held> {
    if matched then from + [metric] else from
  }

  /** One turn of the filter's loop. */
  method FilterOne(
      f: MetricFilter, metric: Held, cost: seq<Held>, observability: seq<Held>,
      ghost costFrom: seq<Held>, ghost observabilityFrom: seq<Held>, ghost inputs: set<LabelMap>)
    returns (matchedCost: bool, cost': seq<Held>, matchedObservability: bool, observability': seq<Held>)
    requires AreRouted(cost, costFrom, f.costLabels, f.rx)
    requires AreRouted(observability, observabilityFrom, f.observabilityLabels, f.rx)
    requires AreOwnMaps(cost, observability, f, inputs) && metric.labels in inputs
    ensures matchedCost == Passes(f.cost, metric.fields.metricName, f.rx)
    ensures matchedObservability == Passes(f.observability, metric.fields.metricName, f.rx)
    ensures AreRouted(cost', With(costFrom, metric, matchedCost), f.costLabels, f.rx)
    ensures AreRouted(
              observability', With(observabilityFrom, metric, matchedObservability), f.observabilityLabels, f.rx)
    ensures AreOwnMaps(cost', observability', f, inputs)
  {
    matchedCost, cost' := Route(metric, f.cost, f.costLabels, f.rx, cost, costFrom);
    matchedObservability, observability' := Route(
      metric, f.observability, f.observabilityLabels, f.rx, observability, observabilityFrom);
  }

  /** The filter's loop: both outputs and the dropped metrics. */
  method FilterAll(f: MetricFilter, metrics: seq<Held>)
    returns (cost: seq<Held>, observability: seq<Held>, dropped: seq<Held>)
    ensures AreRouted(cost, Passing(metrics, f.cost, f.rx), f.costLabels, f.rx)
    ensures AreRouted(observability, Passing(metrics, f.observability, f.rx), f.observabilityLabels, f.rx)
    ensures dropped == Failing(metrics, f)
    ensures AreOwnMaps(cost, observability, f, Maps(metrics))
  {
    cost, observability, dropped := [], [], [];
    for i := 0 to |metrics|
      invariant AreRouted(cost, Passing(metrics[..i], f.cost, f.rx), f.costLabels, f.rx)
      invariant AreRouted(observability, Passing(metrics[..i], f.observability, f.rx), f.observabilityLabels, f.rx)
      invariant dropped == Failing(metrics[..i], f)
      invariant AreOwnMaps(cost, observability, f, Maps(metrics))
    {
      PassingNext(metrics, i, f.cost, f.rx);
      PassingNext(metrics, i, f.observability, f.rx);
      FailingNext(metrics, i, f);
      var matchedCost, matchedObservability;
      matchedCost, cost, matchedObservability, observability := FilterOne(
        f, metrics[i], cost, observability,
        Passing(metrics[..i], f.cost, f.rx), Passing(metrics[..i], f.observability, f.rx), Maps(metrics));
      if !matchedCost && !matchedObservability {
        dropped := dropped + [metrics[i]];
      }
    }
    assert metrics[..|metrics|] == metrics;
  }

  /** MetricFilter.Filter; with no filter at all everything goes both ways. No label map
      that existed before is written to. */
  method Filter(mf: Option<MetricFilter>, metrics: seq<Held>)
    returns (cost: seq<Held>, observability: seq<Held>, dropped: seq<Held>)
    ensures unchanged(Maps(metrics))
    ensures mf.None? ==> cost == observability == metrics && dropped == []
    ensures mf.Some? ==> var f, ms := mf.value, Values(metrics);
              && Values(cost) == Selected(ms, f.cost, f.costLabels, f.rx)
              && Values(observability) == Selected(ms, f.observability, f.observabilityLabels, f.rx)
              && Values(dropped) == Dropped(ms, f)
              && AreOwnMaps(cost, observability, f, Maps(metrics))
  {
    if mf.None? {
      return metrics, metrics, [];
    }
    var f := mf.value;
    cost, observability, dropped := FilterAll(f, metrics);
    RoutedAreSelected(cost, metrics, f.cost, f.costLabels, f.rx);
    RoutedAreSelected(observability, metrics, f.observability, f.observabilityLabels, f.rx);
    FailingAreDropped(metrics, f);
  }

  /** Selection works metric by metric and keeps their order. */
  lemma {:induction false} SelectedConcat(
      a: seq<Metric>, b: seq<Metric>, names: Option<FilterChecker>, labels: Option<FilterChecker>, rx: Regexps)
    ensures Selected(a + b, names, labels, rx) == Selected(a, names, labels, rx) + Selected(b, names, labels, rx)
    decreases |b|
  {
    if b == [] {
      assert a + b == a;
    } else {
      assert (a + b)[..|a + b| - 1] == a + b[..|b| - 1];
      SelectedConcat(a, b[..|b| - 1], names, labels, rx);
    }
  }

  lemma KeptTwice(labels: Labels, chk: Option<FilterChecker>, rx: Regexps)
    ensures Kept(Kept(labels, chk, rx), chk, rx) == Kept(labels, chk, rx)
  {
  }

  /** Filtering what a filter selected selects it unchanged. */
  lemma {:induction false} SelectingTwice(
      ms: seq<Metric>, names: Option<FilterChecker>, labels: Option<FilterChecker>, rx: Regexps)
    ensures var once := Selected(ms, names, labels, rx);
            Selected(once, names, labels, rx) == once
    decreases |ms|
  {
    if ms != [] {
      var last := ms[|ms| - 1];
      SelectingTwice(ms[..|ms| - 1], names, labels, rx);
      var front := Selected(ms[..|ms| - 1], names, labels, rx);
      if Passes(names, last.metricName, rx) {
        var kept := last.(labels := Kept(last.labels, labels, rx));
        assert (front + [kept])[..|front|] == front;
        KeptTwice(last.labels, labels, rx);
      } else {
        assert front + [] == front;
      }
    }
  }

  /** The selected are exactly the metrics whose name passes, with the labels that pass. */
  lemma {:induction false} SelectedIff(
      ms: seq<Metric>, names: Option<FilterChecker>, labels: Option<FilterChecker>, rx: Regexps, m: Metric)
    ensures m in Selected(ms, names, labels, rx) <==>
              exists o :: o in ms && Passes(names, o.metricName, rx) && m == o.(labels := Kept(o.labels, labels, rx))
    decreases |ms|
  {
    if ms != [] {
      var front, last := ms[..|ms| - 1], ms[|ms| - 1];
      assert ms == front + [last];
      assert forall o :: o in ms <==> o in front || o == last;
      SelectedIff(front, names, labels, rx, m);
    }
  }

  /** The dropped are exactly the metrics that neither filter selects. */
  lemma {:induction false} DroppedIff(ms: seq<Metric>, f: MetricFilter, m: Metric)
    ensures m in Dropped(ms, f) <==>
              m in ms && !Passes(f.cost, m.metricName, f.rx) && !Passes(f.observability, m.metricName, f.rx)
    decreases |ms|
  {
    if ms != [] {
      var front, last := ms[..|ms| - 1], ms[|ms| - 1];
      assert ms == front + [last];
      assert forall o :: o in ms <==> o in front || o == last;
      DroppedIff(front, f, m);
    }
  }

  /** Dropped are exactly the metrics that neither list of a configuration accepts. */
  lemma DroppedByConfiguration(ms: seq<Metric>, f: MetricFilter, cfg: Config, m: Metric)
    requires Implements(f, cfg)
    ensures m in Dropped(ms, f) <==>
              m in ms && !Accepts(cfg.cost, m.metricName, f.rx) && !Accepts(cfg.observability, m.metricName, f.rx)
  {
    DroppedIff(ms, f, m);
  }

  /** Filtering keeps decoded metrics free of hoisted labels. */
  lemma {:induction false} SelectedAreClean(
      ms: seq<Metric>, names: Option<FilterChecker>, labels: Option<FilterChecker>, rx: Regexps)
    requires forall m :: m in ms ==> IsClean(m)
    ensures forall m :: m in Selected(ms, names, labels, rx) ==> IsClean(m)
    decreases |ms|
  {
    if ms != [] {
      SelectedAreClean(ms[..|ms| - 1], names, labels, rx);
      assert ms[|ms| - 1] in ms;
    }
  }

  /** What each kind of entry matches: the name itself, or a name with something behind,
      before or around the pattern. */
  lemma EntryMatchesIff(pattern: string, value: string, rx: Regexps)
    ensures EntryMatches(FilterEntry(pattern, Exact), value, rx) <==> value == pattern
    ensures EntryMatches(FilterEntry(pattern, Prefix), value, rx) <==> exists tail :: value == pattern + tail
    ensures EntryMatches(FilterEntry(pattern, Suffix), value, rx) <==> exists front :: value == front + pattern
    ensures EntryMatches(FilterEntry(pattern, Containing), value, rx) <==>
              exists front, tail :: value == front + pattern + tail
    ensures EntryMatches(FilterEntry(pattern, Regex), value, rx) <==> rx.matches(pattern, value)
  {
    PrefixIff(value, pattern);
    SuffixIff(value, pattern);
    ContainsIff(value, pattern);
  }

  /** By configuration: the selected metrics are those whose name the list of names
      accepts, each with exactly those labels whose name the list of labels accepts. */
  lemma SelectedByConfiguration(ms: seq<Metric>, f: MetricFilter, cfg: Config, m: Metric)
    requires Implements(f, cfg)
    ensures m in Selected(ms, f.cost, f.costLabels, f.rx) <==>
              exists o :: o in ms && IsSelectionOf(m, o, cfg.cost, cfg.costLabels, f.rx)
    ensures m in Selected(ms, f.observability, f.observabilityLabels, f.rx) <==>
              exists o :: o in ms && IsSelectionOf(m, o, cfg.observability, cfg.observabilityLabels, f.rx)
  {
    SelectedIff(ms, f.cost, f.costLabels, f.rx, m);
    SelectedIff(ms, f.observability, f.observabilityLabels, f.rx, m);
    forall o
      ensures IsSelectionOf(m, o, cfg.cost, cfg.costLabels, f.rx) <==>
                Passes(f.cost, o.metricName, f.rx) && m == o.(labels := Kept(o.labels, f.costLabels, f.rx))
      ensures IsSelectionOf(m, o, cfg.observability, cfg.observabilityLabels, f.rx) <==>
                Passes(f.observability, o.metricName, f.rx)
                && m == o.(labels := Kept(o.labels, f.observabilityLabels, f.rx))
    {
      SelectionIff(m, o, f.cost, cfg.cost, f.costLabels, cfg.costLabels, f.rx);
      SelectionIff(m, o, f.observability, cfg.observability, f.observabilityLabels, cfg.observabilityLabels, f.rx);
    }
  }

  /** `m` is `o` without the labels that are not accepted. */
  ghost predicate IsSelectionOf(m: Metric, o: Metric, names: seq<FilterEntry>, labels: seq<FilterEntry>, rx: Regexps) {
    && Accepts(names, o.metricName, rx)
    && m == o.(labels := m.labels)
    && (forall k :: k in m.labels <==> k in o.labels && Accepts(labels, k, rx))
    && (forall k :: k in m.labels ==> m.labels[k] == o.labels[k])
  }

  lemma SelectionIff(
      m: Metric, o: Metric, chk: Option<FilterChecker>, names: seq<FilterEntry>,
      labelChk: Option<FilterChecker>, labels: seq<FilterEntry>, rx: Regexps)
    requires forall name :: Passes(chk, name, rx) <==> Accepts(names, name, rx)
    requires forall name :: Passes(labelChk, name, rx) <==> Accepts(labels, name, rx)
    ensures IsSelectionOf(m, o, names, labels, rx) <==>
              Passes(chk, o.metricName, rx) && m == o.(labels := Kept(o.labels, labelChk, rx))
  {
    if IsSelectionOf(m, o, names, labels, rx) {
      assert m.labels == Kept(o.labels, labelChk, rx);
    }
  }
}
