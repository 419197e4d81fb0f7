/** Decoding remote-write requests, version 1 and version 2, into metrics
    (app/domain/metric_collector.go). The protobuf layer is given. */
module Decode {
  import opened Text
  import opened Metrics

  datatype Label = Label(name: string, value: string)
  datatype Sample = Sample(timestamp: Int64, value: real)

  /** A version 1 series names its labels; a version 2 series refers to the
      request's symbols, by name and value alternately. */
  datatype Series = Series(labels: seq<Label>, samples: seq<Sample>)
  datatype SeriesV2 = SeriesV2(labelsRefs: seq<nat>, samples: seq<Sample>, histograms: nat, exemplars: nat)
  datatype RequestV2 = RequestV2(symbols: seq<string>, timeseries: seq<SeriesV2>)

  datatype Stats = Stats(samples: nat, histograms: nat, exemplars: nat, confirmed: bool)

  /** The collector's settings, its clock and id source by call, and the rendering of values. */
  datatype Collector = Collector(
    clusterName: string, cloudAccountID: string,
    newId: nat -> nat, clock: nat -> Time, formatFloat: real -> string)

  /** A label map built in order: the last value of a name counts. */
  function LabelMap(labels: seq<Label>): Labels
    decreases |labels|
  {
    if labels == [] then map[]
    else
      var last := labels[|labels| - 1];
      LabelMap(labels[..|labels| - 1])[last.name := last.value]
  }

  /** A label map has a name's value exactly when some label gives it and no later
      label gives the name another. */
  lemma {:induction false} LabelMapIsLast(labels: seq<Label>, name: string)
    ensures name in LabelMap(labels) <==> exists l :: l in labels && l.name == name
    ensures name in LabelMap(labels) ==>
              exists i :: 0 <= i < |labels| && labels[i] == Label(name, LabelMap(labels)[name])
                          && forall j :: i < j < |labels| ==> labels[j].name != name
    decreases |labels|
  {
    if labels != [] {
      var front, last := labels[..|labels| - 1], labels[|labels| - 1];
      assert labels == front + [last];
      assert forall l :: l in labels <==> l in front || l == last;
      LabelMapIsLast(front, name);
      if last.name == name {
        assert labels[|labels| - 1] == Label(name, LabelMap(labels)[name]);
      } else if name in LabelMap(front) {
        var i :| 0 <= i < |front| && front[i] == Label(name, LabelMap(front)[name])
                 && forall j :: i < j < |front| ==> front[j].name != name;
        assert labels[i] == Label(name, LabelMap(labels)[name]);
      }
    }
  }

  /** A decoded metric but for its fresh id and creation time. */
  function Core(m: Metric): Metric {
    m.(id := 0, createdAt := EPOCH)
  }

  function Cores(ms: seq<Metric>): seq<Metric> {
    seq(|ms|, i requires 0 <= i < |ms| => Core(ms[i]))
  }

  /** What one sample of a series with the given labels says. */
  function SampleMetric(c: Collector, labels: Labels, s: Sample): Metric {
    Imported(
      Metric(0, c.clusterName, c.cloudAccountID, "", "", EPOCH, FromMilli(s.timestamp), map[], c.formatFloat(s.value)),
      labels)
  }

  function SampleMetrics(c: Collector, labels: Labels, samples: seq<Sample>): seq<Metric>
    decreases |samples|
  {
    if samples == [] then []
    else SampleMetrics(c, labels, samples[..|samples| - 1]) + [SampleMetric(c, labels, samples[|samples| - 1])]
  }

  /** All metrics of a version 1 request, nameless ones included. */
  function SeriesMetrics(c: Collector, series: seq<Series>): seq<Metric>
    decreases |series|
  {
    if series == [] then []
    else
      var last := series[|series| - 1];
      SeriesMetrics(c, series[..|series| - 1]) + SampleMetrics(c, LabelMap(last.labels), last.samples)
  }

  function Named(ms: seq<Metric>): seq<Metric>
    decreases |ms|
  {
    if ms == [] then []
    else
      var last := ms[|ms| - 1];
      Named(ms[..|ms| - 1]) + if last.metricName != "" then [last] else []
  }

  lemma CoresAppend(ms: seq<Metric>, m: Metric)
    ensures Cores(ms + [m]) == Cores(ms) + [Core(m)]
  {
  }

  // ------------------------------------------------------------- version 1

  method BuildLabels(labels: seq<Label>) returns (labelsMap: Labels)
    ensures labelsMap == LabelMap(labels)
  {
    labelsMap := map[];
    for i := 0 to |labels|
      invariant labelsMap == LabelMap(labels[..i])
    {
      assert labels[..i + 1][..i] == labels[..i];
      labelsMap := labelsMap[labels[i].name := labels[i].value];
    }
    assert labels[..|labels|] == labels;
  }

  /** One sample, with a fresh id and the time of day; `calls` counts them. */
  method NewMetric(c: Collector, labels: Labels, s: Sample, calls: nat) returns (m: Metric)
    ensures Core(m) == SampleMetric(c, labels, s)
    ensures m.id == c.newId(calls) && m.createdAt == c.clock(calls)
  {
    var metric := new Receiver();
    metric.it := Metric(c.newId(calls), c.clusterName, c.cloudAccountID, "", "", c.clock(calls),
                        FromMilli(s.timestamp), map[], c.formatFloat(s.value));
    metric.ImportLabels(labels);
    m := metric.it;
  }

  /** DecodeV1: every sample of every series, in order, but those without a name. */
  method DecodeV1(c: Collector, timeseries: seq<Series>) returns (metrics: seq<Metric>)
    ensures Cores(metrics) == Named(SeriesMetrics(c, timeseries))
  {
    metrics := [];
    var calls := 0;
    var i := 0;
    while i < |timeseries|
      invariant i <= |timeseries|
      invariant Cores(metrics) == Named(SeriesMetrics(c, timeseries[..i]))
    {
      var ts := timeseries[i];
      var labelsMap := BuildLabels(ts.labels);
      ghost var before := SeriesMetrics(c, timeseries[..i]);
      var j := 0;
      assert before + [] == before;
      while j < |ts.samples|
        invariant j <= |ts.samples|
        invariant Cores(metrics) == Named(before + SampleMetrics(c, labelsMap, ts.samples[..j]))
      {
        var metric := NewMetric(c, labelsMap, ts.samples[j], calls);
        ghost var done := before + SampleMetrics(c, labelsMap, ts.samples[..j]);
        SamplesNext(c, labelsMap, ts.samples, j);
        assert before + SampleMetrics(c, labelsMap, ts.samples[..j + 1]) == done + [Core(metric)];
        NamedNext(done, Core(metric));
        calls, j := calls + 1, j + 1;
        if |metric.metricName| == 0 {
          continue;
        }
        CoresAppend(metrics, metric);
        metrics := metrics + [metric];
      }
      assert ts.samples[..j] == ts.samples;
      assert timeseries[..i + 1][..i] == timeseries[..i];
      i := i + 1;
    }
    assert timeseries[..i] == timeseries;
  }

  lemma SamplesNext(c: Collector, labels: Labels, samples: seq<Sample>, j: nat)
    requires j < |samples|
    ensures SampleMetrics(c, labels, samples[..j + 1])
            == SampleMetrics(c, labels, samples[..j]) + [SampleMetric(c, labels, samples[j])]
  {
    assert samples[..j + 1][..j] == samples[..j];
  }

  lemma NamedNext(done: seq<Metric>, m: Metric)
    ensures Named(done + [m]) == Named(done) + if m.metricName != "" then [m] else []
  {
    assert (done + [m])[..|done|] == done;
  }

  // ------------------------------------------------------------- version 2

  /** What resolving a series' references comes to: its labels, an error at the
      first reference out of bounds, or an index panic at an odd last one. */
  datatype Resolution = Resolved(labels: seq<Label>) | BadRef | OddPanic

  function Resolve(refs: seq<nat>, symbols: seq<string>): Resolution
    decreases |refs|
  {
    if refs == [] then Resolved([])
    else if |refs| == 1 then OddPanic
    else if refs[0] >= |symbols| || refs[1] >= |symbols| then BadRef
    else
      match Resolve(refs[2..], symbols)
      case Resolved(rest) => Resolved([Label(symbols[refs[0]], symbols[refs[1]])] + rest)
      case other => other
  }

  predicate RefsOk(refs: seq<nat>, symbols: seq<string>) {
    forall i :: 0 <= i < |refs| ==> refs[i] < |symbols|
  }

  /** References resolve exactly when they come in pairs and are in bounds; paired
      ones that do not are an error. */
  lemma {:induction false} ResolveIff(refs: seq<nat>, symbols: seq<string>)
    ensures Resolve(refs, symbols).Resolved? <==> |refs| % 2 == 0 && RefsOk(refs, symbols)
    ensures |refs| % 2 == 0 ==> !Resolve(refs, symbols).OddPanic?
    decreases |refs|
  {
    if |refs| >= 2 {
      ResolveIff(refs[2..], symbols);
      assert forall i :: 2 <= i < |refs| ==> refs[i] == refs[2..][i - 2];
    }
  }

  /** Resolved label number k is spelled by references 2k and 2k+1. */
  lemma {:induction false} ResolvedSpells(refs: seq<nat>, symbols: seq<string>, k: nat)
    requires Resolve(refs, symbols).Resolved?
    ensures |refs| == 2 * |Resolve(refs, symbols).labels|
    ensures k < |Resolve(refs, symbols).labels| ==>
              && refs[2 * k] < |symbols| && refs[2 * k + 1] < |symbols|
              && Resolve(refs, symbols).labels[k] == Label(symbols[refs[2 * k]], symbols[refs[2 * k + 1]])
    decreases |refs|
  {
    if |refs| >= 2 {
      ResolvedSpells(refs[2..], symbols, if k > 0 then k - 1 else 0);
    }
  }

  datatype DecodedV2 = Decoded(metrics: seq<Metric>, stats: Stats) | InvalidRefs | Panics

  function ResolutionOf(req: RequestV2, i: nat): Resolution
    requires i < |req.timeseries|
  {
    Resolve(req.timeseries[i].labelsRefs, req.symbols)
  }

  ghost predicate ResolvedUpTo(req: RequestV2, n: nat) {
    n <= |req.timeseries| && forall i: nat :: i < n ==> ResolutionOf(req, i).Resolved?
  }

  /** The first `n` series with their references spelled out. */
  ghost function Desymbolized(req: RequestV2, n: nat): seq<Series>
    requires ResolvedUpTo(req, n)
  {
    seq(n, i requires 0 <= i < n => Series(ResolutionOf(req, i).labels, req.timeseries[i].samples))
  }

  function SumHistograms(timeseries: seq<SeriesV2>): nat
    decreases |timeseries|
  {
    if timeseries == [] then 0
    else SumHistograms(timeseries[..|timeseries| - 1]) + timeseries[|timeseries| - 1].histograms
  }

  function SumExemplars(timeseries: seq<SeriesV2>): nat
    decreases |timeseries|
  {
    if timeseries == [] then 0
    else SumExemplars(timeseries[..|timeseries| - 1]) + timeseries[|timeseries| - 1].exemplars
  }

  /** The outcome of DecodeV2: all metrics with their statistics, or what the first
      series that does not resolve calls for. */
  ghost predicate IsDecodingV2(c: Collector, req: RequestV2, out: DecodedV2) {
    match out
    case Decoded(metrics, stats) =>
      && ResolvedUpTo(req, |req.timeseries|)
      && Cores(metrics) == SeriesMetrics(c, Desymbolized(req, |req.timeseries|))
      && stats == Stats(|metrics|, SumHistograms(req.timeseries), SumExemplars(req.timeseries), true)
    case InvalidRefs => exists i: nat :: i < |req.timeseries| && ResolvedUpTo(req, i) && ResolutionOf(req, i).BadRef?
    case Panics => exists i: nat :: i < |req.timeseries| && ResolvedUpTo(req, i) && ResolutionOf(req, i).OddPanic?
  }

  method ResolveLabels(refs: seq<nat>, symbols: seq<string>) returns (bad: bool, odd: bool, labelsMap: Labels)
    ensures bad <==> Resolve(refs, symbols).BadRef?
    ensures odd <==> Resolve(refs, symbols).OddPanic?
    ensures !bad && !odd ==> labelsMap == LabelMap(Resolve(refs, symbols).labels)
  {
    bad, odd, labelsMap := false, false, map[];
    ghost var labels: seq<Label> := [];
    var i := 0;
    assert refs[0..] == refs;
    while i < |refs|
      invariant i <= |refs| && labelsMap == LabelMap(labels) && !bad && !odd
      invariant Resolve(refs, symbols) == Prepended(labels, Resolve(refs[i..], symbols))
    {
      if i + 1 >= |refs| {
        odd := true;
        return;
      }
      assert refs[i..][2..] == refs[i + 2..];
      if refs[i] >= |symbols| || refs[i + 1] >= |symbols| {
        bad := true;
        return;
      }
      var labelName, labelValue := symbols[refs[i]], symbols[refs[i + 1]];
      PrependedNext(labels, Label(labelName, labelValue), Resolve(refs[i + 2..], symbols));
      labelsMap := labelsMap[labelName := labelValue];
      labels := labels + [Label(labelName, labelValue)];
      i := i + 2;
    }
    assert labels + [] == labels;
  }

  ghost function Prepended(labels: seq<Label>, r: Resolution): Resolution {
    match r case Resolved(rest) => Resolved(labels + rest) case other => other
  }

  lemma PrependedNext(labels: seq<Label>, l: Label, r: Resolution)
    ensures Prepended(labels + [l], r) == Prepended(labels, Prepended([l], r))
    ensures LabelMap(labels + [l]) == LabelMap(labels)[l.name := l.value]
  {
    if r.Resolved? {
      assert labels + ([l] + r.labels) == labels + [l] + r.labels;
    }
    assert (labels + [l])[..|labels|] == labels;
  }

  /** The metrics of one series' samples, appended one by one. */
  method AppendSamples(c: Collector, labelsMap: Labels, samples: seq<Sample>, metrics: seq<Metric>)
    returns (all: seq<Metric>)
    ensures Cores(all) == Cores(metrics) + SampleMetrics(c, labelsMap, samples)
  {
    all := metrics;
    assert Cores(all) + [] == Cores(all);
    var j := 0;
    while j < |samples|
      invariant j <= |samples|
      invariant Cores(all) == Cores(metrics) + SampleMetrics(c, labelsMap, samples[..j])
    {
      var metric := NewMetric(c, labelsMap, samples[j], |all|);
      SamplesNext(c, labelsMap, samples, j);
      CoresAppend(all, metric);
      all := all + [metric];
      j := j + 1;
    }
    assert samples[..j] == samples;
  }

  method DecodeV2(c: Collector, req: RequestV2) returns (out: DecodedV2)
    ensures IsDecodingV2(c, req, out)
    ensures out.Decoded? ==>
              && out.stats.samples == |out.metrics| && out.stats.confirmed
              && out.stats.histograms == SumHistograms(req.timeseries)
              && out.stats.exemplars == SumExemplars(req.timeseries)
  {
    var metrics: seq<Metric> := [];
    var histograms, exemplars, samples := 0, 0, 0;
    var i := 0;
    while i < |req.timeseries|
      invariant i <= |req.timeseries| && ResolvedUpTo(req, i)
      invariant Cores(metrics) == SeriesMetrics(c, Desymbolized(req, i))
      invariant samples == |metrics|
      invariant histograms == SumHistograms(req.timeseries[..i]) && exemplars == SumExemplars(req.timeseries[..i])
    {
      var ts := req.timeseries[i];
      var bad, odd, labelsMap := ResolveLabels(ts.labelsRefs, req.symbols);
      if odd {
        return Panics;
      }
      if bad {
        return InvalidRefs;
      }
      var more := AppendSamples(c, labelsMap, ts.samples, metrics);
      SeriesNext(c, req, i);
      samples := samples + |ts.samples|;
      SampleCount(c, labelsMap, ts.samples);
      assert |more| == |Cores(more)| == |metrics| + |ts.samples|;
      metrics := more;
      SumsNext(req.timeseries, i);
      histograms := histograms + ts.histograms;
      exemplars := exemplars + ts.exemplars;
      i := i + 1;
    }
    assert req.timeseries[..i] == req.timeseries;
    out := Decoded(metrics, Stats(samples, histograms, exemplars, true));
  }

  lemma SumsNext(timeseries: seq<SeriesV2>, i: nat)
    requires i < |timeseries|
    ensures SumHistograms(timeseries[..i + 1]) == SumHistograms(timeseries[..i]) + timeseries[i].histograms
    ensures SumExemplars(timeseries[..i + 1]) == SumExemplars(timeseries[..i]) + timeseries[i].exemplars
  {
    assert timeseries[..i + 1][..i] == timeseries[..i];
  }

  lemma SeriesNext(c: Collector, req: RequestV2, i: nat)
    requires i < |req.timeseries| && ResolvedUpTo(req, i) && ResolutionOf(req, i).Resolved?
    ensures ResolvedUpTo(req, i + 1)
    ensures SeriesMetrics(c, Desymbolized(req, i + 1))
            == SeriesMetrics(c, Desymbolized(req, i))
               + SampleMetrics(c, LabelMap(ResolutionOf(req, i).labels), req.timeseries[i].samples)
  {
    var longer := Desymbolized(req, i + 1);
    assert longer[..i] == Desymbolized(req, i);
    SeriesMetricsNext(c, longer[..i], longer[i]);
    assert longer == longer[..i] + [longer[i]];
  }

  lemma SeriesMetricsNext(c: Collector, series: seq<Series>, last: Series)
    ensures SeriesMetrics(c, series + [last])
            == SeriesMetrics(c, series) + SampleMetrics(c, LabelMap(last.labels), last.samples)
  {
    assert (series + [last])[..|series|] == series;
  }

  lemma {:induction false} SampleCount(c: Collector, labels: Labels, samples: seq<Sample>)
    ensures |SampleMetrics(c, labels, samples)| == |samples|
    decreases |samples|
  {
    if samples != [] {
      SampleCount(c, labels, samples[..|samples| - 1]);
    }
  }

  predicate EvenRefs(req: RequestV2) {
    forall ts :: ts in req.timeseries ==> |ts.labelsRefs| % 2 == 0
  }

  predicate RefsInBounds(req: RequestV2) {
    forall ts :: ts in req.timeseries ==> RefsOk(ts.labelsRefs, req.symbols)
  }

  lemma ResolvedIff(req: RequestV2, n: nat)
    requires n <= |req.timeseries|
    ensures ResolvedUpTo(req, n) <==> forall i :: 0 <= i < n ==>
              |req.timeseries[i].labelsRefs| % 2 == 0 && RefsOk(req.timeseries[i].labelsRefs, req.symbols)
  {
    forall i: nat | i < n
      ensures ResolutionOf(req, i).Resolved? <==>
              |req.timeseries[i].labelsRefs| % 2 == 0 && RefsOk(req.timeseries[i].labelsRefs, req.symbols)
    {
      ResolveIff(req.timeseries[i].labelsRefs, req.symbols);
    }
  }

  /** A version 2 request decodes exactly when all references come in pairs and are
      in bounds; one whose references come in pairs fails with an error exactly when
      some reference is out of bounds, and never panics. */
  lemma DecodesIff(c: Collector, req: RequestV2, out: DecodedV2)
    requires IsDecodingV2(c, req, out)
    ensures out.Decoded? <==> EvenRefs(req) && RefsInBounds(req)
    ensures EvenRefs(req) ==> !out.Panics? && (out.InvalidRefs? <==> !RefsInBounds(req))
  {
    ResolvedIff(req, |req.timeseries|);
    assert EvenRefs(req) && RefsInBounds(req) <==> ResolvedUpTo(req, |req.timeseries|);
    if EvenRefs(req) && out.Panics? {
      var i: nat :| i < |req.timeseries| && ResolvedUpTo(req, i) && ResolutionOf(req, i).OddPanic?;
      ResolveIff(req.timeseries[i].labelsRefs, req.symbols);
    }
  }

  /** Both versions say the same of the same series, but that version 1 drops
      metrics without a name; and the statistics count the metrics. */
  lemma VersionsAgree(c: Collector, req: RequestV2, out: DecodedV2, metricsV1: seq<Metric>)
    requires IsDecodingV2(c, req, out) && out.Decoded?
    requires Cores(metricsV1) == Named(SeriesMetrics(c, Desymbolized(req, |req.timeseries|)))
    ensures Cores(metricsV1) == Named(Cores(out.metrics))
    ensures out.stats.samples == |out.metrics| == SampleTotal(req.timeseries)
    ensures (forall m :: m in Cores(out.metrics) ==> m.metricName != "") ==> Cores(metricsV1) == Cores(out.metrics)
  {
    NamedOfNamed(Cores(out.metrics));
    MetricTotal(c, req, |req.timeseries|);
    assert req.timeseries[..|req.timeseries|] == req.timeseries;
  }

  function SampleTotal(timeseries: seq<SeriesV2>): nat
    decreases |timeseries|
  {
    if timeseries == [] then 0
    else SampleTotal(timeseries[..|timeseries| - 1]) + |timeseries[|timeseries| - 1].samples|
  }

  lemma {:induction false} MetricTotal(c: Collector, req: RequestV2, n: nat)
    requires ResolvedUpTo(req, n)
    ensures |SeriesMetrics(c, Desymbolized(req, n))| == SampleTotal(req.timeseries[..n])
  {
    if n > 0 {
      MetricTotal(c, req, n - 1);
      SeriesNext(c, req, n - 1);
      SampleCount(c, LabelMap(ResolutionOf(req, n - 1).labels), req.timeseries[n - 1].samples);
      assert req.timeseries[..n][..n - 1] == req.timeseries[..n - 1];
    }
  }

  lemma {:induction false} NamedOfNamed(ms: seq<Metric>)
    ensures (forall m :: m in ms ==> m.metricName != "") ==> Named(ms) == ms
    ensures forall m :: m in Named(ms) ==> m in ms && m.metricName != ""
    decreases |ms|
  {
    if ms != [] {
      assert ms == ms[..|ms| - 1] + [ms[|ms| - 1]];
      NamedOfNamed(ms[..|ms| - 1]);
    }
  }

  /** A decoded metric carries neither its name nor its node among its labels. */
  lemma {:induction false} DecodedAreClean(c: Collector, series: seq<Series>)
    ensures forall m :: m in SeriesMetrics(c, series) ==> IsClean(m)
    decreases |series|
  {
    if series != [] {
      var last := series[|series| - 1];
      DecodedAreClean(c, series[..|series| - 1]);
      SamplesAreClean(c, LabelMap(last.labels), last.samples);
    }
  }

  lemma {:induction false} SamplesAreClean(c: Collector, labels: Labels, samples: seq<Sample>)
    ensures forall m :: m in SampleMetrics(c, labels, samples) ==> IsClean(m)
    decreases |samples|
  {
    if samples != [] {
      SamplesAreClean(c, labels, samples[..|samples| - 1]);
    }
  }

  // -------------------------------------- what each decoded metric says

  /** The last label of that name has the value; with none, the value is empty. */
  ghost predicate LastIs(labels: seq<Label>, name: string, value: string) {
    || (exists i :: 0 <= i < |labels| && labels[i] == Label(name, value)
                    && forall j :: i < j < |labels| ==> labels[j].name != name)
    || (value == "" && forall i :: 0 <= i < |labels| ==> labels[i].name != name)
  }

  ghost predicate Names(labels: seq<Label>, name: string) {
    exists i :: 0 <= i < |labels| && labels[i].name == name
  }

  /** The metric tells of this sample of a series with these labels. */
  ghost predicate TellsOf(m: Metric, c: Collector, labels: seq<Label>, s: Sample) {
    && m.clusterName == c.clusterName
    && m.cloudAccountID == c.cloudAccountID
    && m.timeStamp == s.timestamp * 1_000_000
    && m.value == c.formatFloat(s.value)
    && LastIs(labels, "__name__", m.metricName)
    && LastIs(labels, "node", m.nodeName)
    && (forall name :: name in m.labels <==> Names(labels, name) && name != "__name__" && name != "node")
    && (forall name :: name in m.labels ==> LastIs(labels, name, m.labels[name]))
  }

  lemma GetIsLast(labels: seq<Label>, name: string)
    ensures LastIs(labels, name, Get(LabelMap(labels), name, ""))
    ensures name in LabelMap(labels) <==> Names(labels, name)
  {
    LabelMapIsLast(labels, name);
    if l :| l in labels && l.name == name {
      var i :| 0 <= i < |labels| && labels[i] == l;
    }
    if i :| 0 <= i < |labels| && labels[i].name == name {
      assert labels[i] in labels;
    }
  }

  lemma SampleMetricTellsOf(c: Collector, labels: seq<Label>, s: Sample)
    ensures TellsOf(SampleMetric(c, LabelMap(labels), s), c, labels, s)
  {
    var m := SampleMetric(c, LabelMap(labels), s);
    GetIsLast(labels, "__name__");
    GetIsLast(labels, "node");
    assert m.labels == LabelMap(labels) - HOISTED;
    forall name
      ensures name in m.labels <==> Names(labels, name) && name != "__name__" && name != "node"
      ensures name in m.labels ==> LastIs(labels, name, m.labels[name])
    {
      GetIsLast(labels, name);
    }
  }

  /** How many samples the first `n` series have. */
  function SamplesBefore(series: seq<Series>, n: nat): nat
    requires n <= |series|
  {
    if n == 0 then 0 else SamplesBefore(series, n - 1) + |series[n - 1].samples|
  }

  lemma {:induction false} SamplesBeforeFront(series: seq<Series>, last: Series, n: nat)
    requires n <= |series|
    ensures SamplesBefore(series + [last], n) == SamplesBefore(series, n)
  {
    if n > 0 { SamplesBeforeFront(series, last, n - 1); }
  }

  lemma {:induction false} SampleMetricAt(c: Collector, labels: Labels, samples: seq<Sample>, j: nat)
    requires j < |samples|
    ensures |SampleMetrics(c, labels, samples)| == |samples|
    ensures SampleMetrics(c, labels, samples)[j] == SampleMetric(c, labels, samples[j])
    decreases |samples|
  {
    SampleCount(c, labels, samples);
    SampleCount(c, labels, samples[..|samples| - 1]);
    if j < |samples| - 1 { SampleMetricAt(c, labels, samples[..|samples| - 1], j); }
  }

  /** The metrics come in the order of the series and their samples, one a sample: number
      j of series k, behind all samples of the series before, tells of that sample. */
  lemma {:induction false} SeriesMetricTellsOf(c: Collector, series: seq<Series>, k: nat, j: nat)
    requires k < |series| && j < |series[k].samples|
    ensures |SeriesMetrics(c, series)| == SamplesBefore(series, |series|)
    ensures SamplesBefore(series, k) + j < |SeriesMetrics(c, series)|
    ensures TellsOf(SeriesMetrics(c, series)[SamplesBefore(series, k) + j], c, series[k].labels, series[k].samples[j])
    decreases |series|
  {
    var n := |series| - 1;
    var front, last := series[..n], series[n];
    assert series == front + [last];
    SeriesMetricsCount(c, front);
    SampleCount(c, LabelMap(last.labels), last.samples);
    SamplesBeforeFront(front, last, k);
    SamplesBeforeFront(front, last, n);
    if k < n {
      SeriesMetricTellsOf(c, front, k, j);
    } else {
      SampleMetricAt(c, LabelMap(last.labels), last.samples, j);
      SampleMetricTellsOf(c, last.labels, last.samples[j]);
    }
  }

  lemma {:induction false} SeriesMetricsCount(c: Collector, series: seq<Series>)
    ensures |SeriesMetrics(c, series)| == SamplesBefore(series, |series|)
    decreases |series|
  {
    if series != [] {
      var front, last := series[..|series| - 1], series[|series| - 1];
      assert series == front + [last];
      SeriesMetricsCount(c, front);
      SampleCount(c, LabelMap(last.labels), last.samples);
      SamplesBeforeFront(front, last, |front|);
    }
  }

  /** Ids and creation times do not matter to that. */
  lemma MetricTellsOf(c: Collector, series: seq<Series>, metrics: seq<Metric>, k: nat, j: nat)
    requires Cores(metrics) == SeriesMetrics(c, series)
    requires k < |series| && j < |series[k].samples|
    ensures |metrics| == SamplesBefore(series, |series|) && SamplesBefore(series, k) + j < |metrics|
    ensures TellsOf(metrics[SamplesBefore(series, k) + j], c, series[k].labels, series[k].samples[j])
  {
    SeriesMetricTellsOf(c, series, k, j);
    var i := SamplesBefore(series, k) + j;
    assert Cores(metrics)[i] == Core(metrics[i]);
  }

  /** The metrics are one a sample, in order: number j of series k, behind all samples of
      the series before, tells of that sample. */
  ghost predicate TellOfAll(metrics: seq<Metric>, c: Collector, series: seq<Series>) {
    && |metrics| == SamplesBefore(series, |series|)
    && forall k: nat, j: nat :: k < |series| && j < |series[k].samples| ==>
         var i := SamplesBefore(series, k) + j;
         i < |metrics| && TellsOf(metrics[i], c, series[k].labels, series[k].samples[j])
  }

  lemma MetricsTellOfAll(c: Collector, series: seq<Series>, metrics: seq<Metric>)
    requires Cores(metrics) == SeriesMetrics(c, series)
    ensures TellOfAll(metrics, c, series)
  {
    SeriesMetricsCount(c, series);
    forall k: nat, j: nat | k < |series| && j < |series[k].samples|
      ensures var i := SamplesBefore(series, k) + j;
              i < |metrics| && TellsOf(metrics[i], c, series[k].labels, series[k].samples[j])
    {
      MetricTellsOf(c, series, metrics, k, j);
    }
  }

  /** What version 2 decoding returns. */
  lemma DecodedV2TellOfAll(c: Collector, req: RequestV2, out: DecodedV2)
    requires IsDecodingV2(c, req, out) && out.Decoded?
    ensures TellOfAll(out.metrics, c, Desymbolized(req, |req.timeseries|))
  {
    MetricsTellOfAll(c, Desymbolized(req, |req.timeseries|), out.metrics);
  }

  /** Desymbolized series k has the request's samples and the labels its references spell. */
  lemma DesymbolizedAt(req: RequestV2, k: nat)
    requires ResolvedUpTo(req, |req.timeseries|) && k < |req.timeseries|
    ensures var series := Desymbolized(req, |req.timeseries|);
            && |series| == |req.timeseries| && series[k].samples == req.timeseries[k].samples
            && Resolve(req.timeseries[k].labelsRefs, req.symbols) == Resolved(series[k].labels)
  {
    assert ResolutionOf(req, k).Resolved?;
  }

  /** The series whose last name label is there and not empty, in order. */
  ghost function NamedSeries(series: seq<Series>): seq<Series>
    decreases |series|
  {
    if series == [] then []
    else
      var last := series[|series| - 1];
      NamedSeries(series[..|series| - 1]) + if LastIs(last.labels, "__name__", "") then [] else [last]
  }

  lemma LastIsOne(labels: seq<Label>, name: string, value: string, other: string)
    requires LastIs(labels, name, value) && LastIs(labels, name, other)
    ensures value == other
  {
    if i, k :| && 0 <= i < |labels| && labels[i] == Label(name, value)
               && (forall j :: i < j < |labels| ==> labels[j].name != name)
               && 0 <= k < |labels| && labels[k] == Label(name, other)
               && (forall j :: k < j < |labels| ==> labels[j].name != name)
    {
      assert i == k;
    }
  }

  lemma {:induction false} SampleMetricsNamed(c: Collector, labels: seq<Label>, samples: seq<Sample>)
    ensures Named(SampleMetrics(c, LabelMap(labels), samples))
            == if LastIs(labels, "__name__", "") then [] else SampleMetrics(c, LabelMap(labels), samples)
    decreases |samples|
  {
    if samples != [] {
      var front, last := samples[..|samples| - 1], samples[|samples| - 1];
      SampleMetricsNamed(c, labels, front);
      GetIsLast(labels, "__name__");
      if LastIs(labels, "__name__", "") { LastIsOne(labels, "__name__", "", Get(LabelMap(labels), "__name__", "")); }
      NamedNext(SampleMetrics(c, LabelMap(labels), front), SampleMetric(c, LabelMap(labels), last));
    }
  }

  lemma {:induction false} NamedConcat(a: seq<Metric>, b: seq<Metric>)
    ensures Named(a + b) == Named(a) + Named(b)
    decreases |b|
  {
    if b == [] {
      assert a + b == a;
    } else {
      assert (a + b)[..|a + b| - 1] == a + b[..|b| - 1];
      NamedConcat(a, b[..|b| - 1]);
    }
  }

  /** Dropping nameless metrics is dropping the series without a name. */
  lemma {:induction false} NamedMetricsAreOfNamedSeries(c: Collector, series: seq<Series>)
    ensures Named(SeriesMetrics(c, series)) == SeriesMetrics(c, NamedSeries(series))
    decreases |series|
  {
    if series != [] {
      var front, last := series[..|series| - 1], series[|series| - 1];
      NamedMetricsAreOfNamedSeries(c, front);
      SampleMetricsNamed(c, last.labels, last.samples);
      NamedConcat(SeriesMetrics(c, front), SampleMetrics(c, LabelMap(last.labels), last.samples));
      if LastIs(last.labels, "__name__", "") {
        assert NamedSeries(series) == NamedSeries(front);
        assert Named(SeriesMetrics(c, series)) == Named(SeriesMetrics(c, front));
      } else {
        SeriesMetricsNext(c, NamedSeries(front), last);
      }
    }
  }

  /** What version 1 decoding returns. */
  lemma DecodedV1TellOfAll(c: Collector, timeseries: seq<Series>, metrics: seq<Metric>)
    requires Cores(metrics) == Named(SeriesMetrics(c, timeseries))
    ensures TellOfAll(metrics, c, NamedSeries(timeseries))
  {
    NamedMetricsAreOfNamedSeries(c, timeseries);
    MetricsTellOfAll(c, NamedSeries(timeseries), metrics);
  }

  /** Histograms and exemplars are counted over all series. */
  lemma {:induction false} SumsAdd(a: seq<SeriesV2>, ts: SeriesV2)
    ensures SumHistograms([]) == SumExemplars([]) == 0
    ensures SumHistograms(a + [ts]) == SumHistograms(a) + ts.histograms
    ensures SumExemplars(a + [ts]) == SumExemplars(a) + ts.exemplars
  {
    assert (a + [ts])[..|a|] == a;
  }
}
