/** What the way of a metric from a remote-write request to a file and back keeps:
    decoding, filtering, and the JSON or Parquet form. */
module Pipeline {
  import opened Text
  import opened Metrics
  import Decode
  import Filter

  /** All fields but a fraction of a millisecond of the creation time. */
  predicate IsRestored(r: Metric, m: Metric) {
    r == m.(createdAt := FromMilli(UnixMilli(m.createdAt)))
  }

  /** The JSON and the Parquet form of the metric restore it, Parquet without its id. */
  ghost predicate Survives(m: Metric, c: Codec) {
    && Parses(JSON(m, c), c) && IsRestored(Unmarshaled(ZERO, JSON(m, c), c), m)
    && FromParquet(Parquet(m, c), c).Some? && IsRestored(FromParquet(Parquet(m, c), c).value, m.(id := 0))
  }

  /** Observed at a whole millisecond. */
  predicate IsWhole(m: Metric) {
    FromMilli(UnixMilli(m.timeStamp)) == m.timeStamp
  }

  lemma CleanSurvives(m: Metric, c: Codec)
    requires Lawful(c) && IsClean(m) && IsWhole(m)
    ensures Survives(m, c)
  {
    JsonRoundTripIff(m, c);
    ParquetRoundTripIff(m, c);
  }

  lemma {:induction false} SamplesAreWhole(c: Decode.Collector, labels: Labels, samples: seq<Decode.Sample>)
    ensures forall m :: m in Decode.SampleMetrics(c, labels, samples) ==> IsWhole(m)
    decreases |samples|
  {
    if samples != [] {
      SamplesAreWhole(c, labels, samples[..|samples| - 1]);
    }
  }

  lemma {:induction false} DecodedAreWhole(c: Decode.Collector, series: seq<Decode.Series>)
    ensures forall m :: m in Decode.SeriesMetrics(c, series) ==> IsWhole(m)
    decreases |series|
  {
    if series != [] {
      var last := series[|series| - 1];
      DecodedAreWhole(c, series[..|series| - 1]);
      SamplesAreWhole(c, Decode.LabelMap(last.labels), last.samples);
    }
  }

  /** The metrics a decoder returned, ids and creation times included. */
  lemma ReturnedAreCleanAndWhole(c: Decode.Collector, series: seq<Decode.Series>, metrics: seq<Metric>)
    requires forall m :: m in Decode.Cores(metrics) ==> m in Decode.SeriesMetrics(c, series)
    ensures forall m :: m in metrics ==> IsClean(m) && IsWhole(m)
  {
    Decode.DecodedAreClean(c, series);
    DecodedAreWhole(c, series);
    forall m | m in metrics ensures IsClean(m) && IsWhole(m) {
      var i :| 0 <= i < |metrics| && metrics[i] == m;
      assert Decode.Cores(metrics)[i] == Decode.Core(m);
      assert Decode.Core(m) in Decode.Cores(metrics);
    }
  }

  lemma SelectedSurvive(
      metrics: seq<Metric>, names: Option<Filter.FilterChecker>, labels: Option<Filter.FilterChecker>,
      rx: Filter.Regexps, codec: Codec, m: Metric)
    requires Lawful(codec) && forall o :: o in metrics ==> IsClean(o) && IsWhole(o)
    requires m in Filter.Selected(metrics, names, labels, rx)
    ensures Survives(m, codec)
  {
    Filter.SelectedAreClean(metrics, names, labels, rx);
    Filter.SelectedIff(metrics, names, labels, rx, m);
    CleanSurvives(m, codec);
  }

  /** Whatever version 2 decoding returns and any filter selects is restored from both forms. */
  lemma DecodedV2Survive(
      c: Decode.Collector, req: Decode.RequestV2, out: Decode.DecodedV2,
      names: Option<Filter.FilterChecker>, labels: Option<Filter.FilterChecker>, rx: Filter.Regexps,
      codec: Codec, m: Metric)
    requires Decode.IsDecodingV2(c, req, out) && out.Decoded? && Lawful(codec)
    requires m in Filter.Selected(out.metrics, names, labels, rx)
    ensures Survives(m, codec)
  {
    ReturnedAreCleanAndWhole(c, Decode.Desymbolized(req, |req.timeseries|), out.metrics);
    SelectedSurvive(out.metrics, names, labels, rx, codec, m);
  }

  /** And so is what version 1 decoding returns. */
  lemma DecodedV1Survive(
      c: Decode.Collector, series: seq<Decode.Series>, metrics: seq<Metric>,
      names: Option<Filter.FilterChecker>, labels: Option<Filter.FilterChecker>, rx: Filter.Regexps,
      codec: Codec, m: Metric)
    requires Decode.Cores(metrics) == Decode.Named(Decode.SeriesMetrics(c, series)) && Lawful(codec)
    requires m in Filter.Selected(metrics, names, labels, rx)
    ensures Survives(m, codec)
  {
    Decode.NamedOfNamed(Decode.SeriesMetrics(c, series));
    ReturnedAreCleanAndWhole(c, series, metrics);
    SelectedSurvive(metrics, names, labels, rx, codec, m);
  }
}
