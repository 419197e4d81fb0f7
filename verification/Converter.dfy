/** Metrics to and from Prometheus time series (app/domain/metricio/converter.go). */
module Converter {
  import opened Text
  import opened Metrics
  import opened Decode

  // ------------------------------------------------------- the order of names

  /** Go's order of strings. */
  predicate Less(a: string, b: string) {
    b != "" && (a == "" || a[0] < b[0] || (a[0] == b[0] && Less(a[1..], b[1..])))
  }

  lemma {:induction false} LessIsStrict(a: string, b: string)
    ensures !(Less(a, b) && Less(b, a))
    ensures !Less(a, a)
  {
    if a != "" && b != "" { LessIsStrict(a[1..], b[1..]); }
    if a != "" && b == "" { LessIsStrict(a[1..], b); }
  }

  lemma {:induction false} LessIsTransitive(a: string, b: string, c: string)
    requires Less(a, b) && Less(b, c)
    ensures Less(a, c)
  {
    if a != "" && a[0] == b[0] && b[0] == c[0] { LessIsTransitive(a[1..], b[1..], c[1..]); }
  }

  lemma {:induction false} LessIsTotal(a: string, b: string)
    ensures Less(a, b) || Less(b, a) || a == b
  {
    if a != "" && b != "" && a[0] == b[0] {
      LessIsTotal(a[1..], b[1..]);
      if a[1..] == b[1..] { assert a == [a[0]] + a[1..] == b; }
    }
  }

  lemma NotLessIsTransitive(a: string, b: string, c: string)
    requires !Less(b, a) && !Less(c, b)
    ensures !Less(c, a)
  {
    if Less(c, a) {
      LessIsTotal(a, b);
      if Less(a, b) { LessIsTransitive(c, a, b); }
    }
  }

  ghost predicate Sorted(labels: seq<Label>) {
    forall i, j :: 0 <= i < j < |labels| ==> !Less(labels[j].name, labels[i].name)
  }

  ghost predicate StrictlySorted(labels: seq<Label>) {
    forall i, j :: 0 <= i < j < |labels| ==> Less(labels[i].name, labels[j].name)
  }

  ghost predicate DistinctNames(labels: seq<Label>) {
    forall i, j :: 0 <= i < j < |labels| ==> labels[i].name != labels[j].name
  }

  lemma StrictlySortedIff(labels: seq<Label>)
    requires Sorted(labels)
    ensures StrictlySorted(labels) <==> DistinctNames(labels)
  {
    forall i, j | 0 <= i < j < |labels|
      ensures Less(labels[i].name, labels[j].name) <==> labels[i].name != labels[j].name
    {
      LessIsTotal(labels[i].name, labels[j].name);
      LessIsStrict(labels[i].name, labels[i].name);
    }
  }

  /** A strict order leaves one arrangement of the same labels. */
  lemma {:induction false} ArrangementIsUnique(a: seq<Label>, b: seq<Label>)
    requires StrictlySorted(a) && StrictlySorted(b)
    requires forall l :: l in a <==> l in b
    ensures a == b
    decreases |a|
  {
    assert a != [] ==> a[0] in b;
    assert b != [] ==> b[0] in a;
    if a != [] {
      LessIsStrict(a[0].name, b[0].name);
      assert a[0] == b[0];
      forall l
        ensures l in a[1..] <==> l in b[1..]
      {
        LessIsStrict(l.name, l.name);
        assert a == [a[0]] + a[1..] && b == [b[0]] + b[1..];
        assert l in a <==> l == a[0] || l in a[1..];
        assert l in b <==> l == b[0] || l in b[1..];
      }
      ArrangementIsUnique(a[1..], b[1..]);
    }
  }

  /** The place of sort.Slice: any arrangement in order will do. */
  method SortByName(labels: seq<Label>) returns (sorted: seq<Label>)
    ensures Sorted(sorted) && multiset(sorted) == multiset(labels)
  {
    sorted := [];
    for i := 0 to |labels|
      invariant Sorted(sorted) && multiset(sorted) == multiset(labels[..i])
    {
      sorted := Insert(sorted, labels[i]);
      assert labels[..i + 1] == labels[..i] + [labels[i]];
    }
    assert labels[..|labels|] == labels;
  }

  method Insert(s: seq<Label>, x: Label) returns (longer: seq<Label>)
    requires Sorted(s)
    ensures Sorted(longer) && multiset(longer) == multiset(s) + multiset{x}
  {
    var j: nat := |s|;
    while j > 0 && Less(x.name, s[j - 1].name)
      invariant j <= |s|
      invariant forall k :: j <= k < |s| ==> Less(x.name, s[k].name)
    {
      j := j - 1;
    }
    InsertKeepsOrder(s, j, x);
    assert s == s[..j] + s[j..];
    longer := s[..j] + [x] + s[j..];
  }

  lemma InsertKeepsOrder(s: seq<Label>, j: nat, x: Label)
    requires Sorted(s) && j <= |s|
    requires j > 0 ==> !Less(x.name, s[j - 1].name)
    requires forall k :: j <= k < |s| ==> Less(x.name, s[k].name)
    ensures Sorted(s[..j] + [x] + s[j..])
  {
    forall k | 0 <= k < j
      ensures !Less(x.name, s[k].name)
    {
      if k < j - 1 { NotLessIsTransitive(s[k].name, s[j - 1].name, x.name); }
    }
    forall k | j <= k < |s|
      ensures !Less(s[k].name, x.name)
    {
      LessIsStrict(x.name, s[k].name);
    }
  }

  // ------------------------------------------------------------ label entries

  ghost function NonEmpty(labels: Labels): Labels {
    map k | k in labels && labels[k] != "" :: labels[k]
  }

  ghost function Entries(labels: Labels): set<Label> {
    set k | k in labels :: Label(k, labels[k])
  }

  lemma EntriesIff(labels: Labels, l: Label)
    ensures l in Entries(labels) <==> l.name in labels && labels[l.name] == l.value
  {
  }

  /** The loops over a label map, in whatever order its names come. */
  method AppendEntries(labels: seq<Label>, extra: Labels, skip: set<string>) returns (all: seq<Label>)
    ensures multiset(all) == multiset(labels) + multiset(Entries(NonEmpty(extra - skip)))
  {
    all := labels;
    var todo := extra.Keys;
    assert Entries(NonEmpty(extra - todo - skip)) == {};
    while todo != {}
      invariant todo <= extra.Keys
      invariant multiset(all) == multiset(labels) + multiset(Entries(NonEmpty(extra - todo - skip)))
      decreases todo
    {
      var k :| k in todo;
      EntriesNext(extra, todo, skip, k);
      todo := todo - {k};
      if k !in skip && extra[k] != "" {
        all := all + [Label(k, extra[k])];
      }
    }
    assert extra - todo == extra;
  }

  lemma EntriesNext(extra: Labels, todo: set<string>, skip: set<string>, k: string)
    requires k in todo && todo <= extra.Keys
    ensures var was := multiset(Entries(NonEmpty(extra - todo - skip)));
            multiset(Entries(NonEmpty(extra - (todo - {k}) - skip)))
            == if k !in skip && extra[k] != "" then was + multiset{Label(k, extra[k])} else was
  {
    var before, after := NonEmpty(extra - todo - skip), NonEmpty(extra - (todo - {k}) - skip);
    if k !in skip && extra[k] != "" {
      assert after == before[k := extra[k]];
      assert Entries(after) == Entries(before) + {Label(k, extra[k])} by {
        forall l
          ensures l in Entries(after) <==> l in Entries(before) + {Label(k, extra[k])}
        {
          EntriesIff(after, l);
          EntriesIff(before, l);
        }
      }
    } else {
      assert after == before;
    }
  }

  /** Whether names are distinct depends on the labels, not on their order. */
  lemma DistinctNamesIff(labels: seq<Label>)
    ensures DistinctNames(labels) <==>
              && (forall l :: multiset(labels)[l] <= 1)
              && forall l, l' :: l in labels && l' in labels && l.name == l'.name ==> l == l'
  {
    if DistinctNames(labels) {
      forall l
        ensures multiset(labels)[l] <= 1
      {
        DistinctOccursOnce(labels, l);
      }
    } else {
      var i, j :| 0 <= i < j < |labels| && labels[i].name == labels[j].name;
      if labels[i] == labels[j] {
        OccursTwice(labels, i, j);
      }
    }
  }

  lemma OccursTwice(labels: seq<Label>, i: nat, j: nat)
    requires i < j < |labels| && labels[i] == labels[j]
    ensures multiset(labels)[labels[i]] >= 2
  {
    var front, back := labels[..j], labels[j..];
    assert labels == front + back;
    assert front[i] in multiset(front) && back[0] in multiset(back);
    assert multiset(labels) == multiset(front) + multiset(back);
  }

  lemma {:induction false} DistinctOccursOnce(labels: seq<Label>, l: Label)
    requires DistinctNames(labels)
    ensures multiset(labels)[l] <= 1
    decreases |labels|
  {
    if labels != [] {
      var front, last := labels[..|labels| - 1], labels[|labels| - 1];
      assert labels == front + [last];
      DistinctOccursOnce(front, l);
      assert l == last ==> l !in front;
    }
  }

  /** Labels with distinct names are read back one for one. */
  lemma LabelMapIff(labels: seq<Label>, l: Label)
    requires DistinctNames(labels)
    ensures l in labels <==> l.name in LabelMap(labels) && LabelMap(labels)[l.name] == l.value
  {
    LabelMapIsLast(labels, l.name);
    if l in labels {
      var i :| 0 <= i < |labels| && labels[i] == Label(l.name, LabelMap(labels)[l.name]);
      var j :| 0 <= j < |labels| && labels[j] == l;
      assert i == j;
    }
  }

  // --------------------------------------------------- metric to time series

  /** All labels of a metric's series: its full labels, the cluster and the account. */
  function AllLabels(m: Metric): Labels {
    var full := FullLabels(m);
    var named := if m.clusterName != "" then full["cluster_name" := m.clusterName] else full;
    if m.cloudAccountID != "" then named["cloud_account_id" := m.cloudAccountID] else named
  }

  /** The series of a metric: every non-empty label once, in strict order, one sample. */
  ghost predicate IsSeriesOf(ts: Series, m: Metric, parse: string -> real) {
    && StrictlySorted(ts.labels)
    && (forall l :: l in ts.labels <==> l in Entries(NonEmpty(AllLabels(m))))
    && ts.samples == [Sample(UnixMilli(m.timeStamp), parse(m.value))]
  }

  /** MetricToTimeSeries; `parse` is zero on text that is no number. */
  method MetricToTimeSeries(m: Metric, parse: string -> real) returns (ts: Series)
    ensures IsSeriesOf(ts, m, parse)
  {
    var fullLabels := FullLabels(m);
    if m.clusterName != "" {
      fullLabels := fullLabels["cluster_name" := m.clusterName];
    }
    if m.cloudAccountID != "" {
      fullLabels := fullLabels["cloud_account_id" := m.cloudAccountID];
    }
    var labels := AppendEntries([], fullLabels, {});
    assert fullLabels - {} == fullLabels;
    labels := SortByName(labels);
    EntriesAreDistinct(labels, NonEmpty(fullLabels));
    StrictlySortedIff(labels);
    ts := Series(labels, [Sample(UnixMilli(m.timeStamp), parse(m.value))]);
  }

  lemma EntriesAreDistinct(labels: seq<Label>, of: Labels)
    requires multiset(labels) == multiset(Entries(of))
    ensures DistinctNames(labels)
    ensures forall l :: l in labels <==> l in Entries(of)
  {
    forall l
      ensures l in labels <==> l in Entries(of)
    {
      assert l in labels <==> l in multiset(labels);
    }
    DistinctNamesIff(labels);
  }

  /** There is one such series, whatever the order of the map and the sort. */
  lemma SeriesIsUnique(ts: Series, ts': Series, m: Metric, parse: string -> real)
    requires IsSeriesOf(ts, m, parse) && IsSeriesOf(ts', m, parse)
    ensures ts == ts'
  {
    ArrangementIsUnique(ts.labels, ts'.labels);
  }

  // --------------------------------------------------- time series to metrics

  const SERIES_HOISTED: set<string> := {"__name__", "node", "cluster_name", "cloud_account_id"}

  function MetricOf(labels: Labels, s: Sample, now: Time, format: real -> string): Metric {
    Metric(0, Get(labels, "cluster_name", ""), Get(labels, "cloud_account_id", ""),
           Get(labels, "__name__", ""), Get(labels, "node", ""),
           now, FromMilli(s.timestamp), labels - SERIES_HOISTED, format(s.value))
  }

  /** The hoisted labels and the rest, each name with its last value. */
  method ExtractLabels(labels: seq<Label>)
    returns (rest: Labels, metricName: string, nodeName: string, clusterName: string, cloudAccountID: string)
    ensures rest == LabelMap(labels) - SERIES_HOISTED
    ensures metricName == Get(LabelMap(labels), "__name__", "")
    ensures nodeName == Get(LabelMap(labels), "node", "")
    ensures clusterName == Get(LabelMap(labels), "cluster_name", "")
    ensures cloudAccountID == Get(LabelMap(labels), "cloud_account_id", "")
  {
    rest, metricName, nodeName, clusterName, cloudAccountID := map[], "", "", "", "";
    for i := 0 to |labels|
      invariant rest == LabelMap(labels[..i]) - SERIES_HOISTED
      invariant metricName == Get(LabelMap(labels[..i]), "__name__", "")
      invariant nodeName == Get(LabelMap(labels[..i]), "node", "")
      invariant clusterName == Get(LabelMap(labels[..i]), "cluster_name", "")
      invariant cloudAccountID == Get(LabelMap(labels[..i]), "cloud_account_id", "")
    {
      var l := labels[i];
      assert labels[..i + 1][..i] == labels[..i];
      if l.name == "__name__" {
        metricName := l.value;
      } else if l.name == "node" {
        nodeName := l.value;
      } else if l.name == "cluster_name" {
        clusterName := l.value;
      } else if l.name == "cloud_account_id" {
        cloudAccountID := l.value;
      } else {
        rest := rest[l.name := l.value];
      }
    }
    assert labels[..|labels|] == labels;
  }

  /** TimeSeriesToMetrics: a metric a sample; of a repeated name the last label counts. */
  method TimeSeriesToMetrics(ts: Series, now: Time, format: real -> string) returns (metrics: seq<Metric>)
    ensures |metrics| == |ts.samples|
    ensures forall i :: 0 <= i < |metrics| ==> metrics[i] == MetricOf(LabelMap(ts.labels), ts.samples[i], now, format)
  {
    var labels, metricName, nodeName, clusterName, cloudAccountID := ExtractLabels(ts.labels);
    metrics := [];
    for i := 0 to |ts.samples|
      invariant |metrics| == i
      invariant forall j :: 0 <= j < i ==> metrics[j] == MetricOf(LabelMap(ts.labels), ts.samples[j], now, format)
    {
      metrics := metrics + [Metric(0, clusterName, cloudAccountID, metricName, nodeName, now,
                                   FromMilli(ts.samples[i].timestamp), labels, format(ts.samples[i].value))];
    }
  }

  /** No label has the name of a hoisted one, and none is empty. */
  ghost predicate Carries(m: Metric) {
    m.labels.Keys !! SERIES_HOISTED && NonEmpty(m.labels) == m.labels
  }

  /** What a series can restore of a metric. */
  function Restored(m: Metric, now: Time): Metric {
    ToMillis(m).(id := 0, createdAt := now)
  }

  lemma AllLabelsCarry(m: Metric)
    ensures var l := NonEmpty(AllLabels(m)); l - SERIES_HOISTED == m.labels <==> Carries(m)
  {
    var l := NonEmpty(AllLabels(m)) - SERIES_HOISTED;
    assert forall k :: k !in SERIES_HOISTED ==> (k in AllLabels(m) <==> k in m.labels);
    assert l == NonEmpty(m.labels) - SERIES_HOISTED;
    if Carries(m) {
      assert l == m.labels;
    } else if k :| k in m.labels && k in SERIES_HOISTED {
      assert k !in l;
    } else {
      var k :| k in m.labels && m.labels[k] == "";
      assert k !in l;
    }
  }

  lemma HoistedFields(m: Metric)
    requires Carries(m)
    ensures var l := NonEmpty(AllLabels(m));
            && Get(l, "__name__", "") == m.metricName
            && Get(l, "node", "") == m.nodeName
            && Get(l, "cluster_name", "") == m.clusterName
            && Get(l, "cloud_account_id", "") == m.cloudAccountID
  {
    assert "__name__" !in m.labels && "node" !in m.labels;
    assert "cluster_name" !in m.labels && "cloud_account_id" !in m.labels;
  }

  lemma SeriesLabelMap(ts: Series, m: Metric, parse: string -> real)
    requires IsSeriesOf(ts, m, parse)
    ensures LabelMap(ts.labels) == NonEmpty(AllLabels(m))
  {
    StrictIsDistinct(ts.labels);
    var a, b := LabelMap(ts.labels), NonEmpty(AllLabels(m));
    forall k
      ensures k in a <==> k in b
      ensures k in a ==> a[k] == b[k]
    {
      if k in a { LabelMapIff(ts.labels, Label(k, a[k])); }
      if k in b { LabelMapIff(ts.labels, Label(k, b[k])); }
    }
  }

  lemma StrictIsDistinct(labels: seq<Label>)
    requires StrictlySorted(labels)
    ensures DistinctNames(labels)
  {
    forall i, j | 0 <= i < j < |labels|
      ensures labels[i].name != labels[j].name
    {
      LessIsStrict(labels[i].name, labels[j].name);
    }
  }

  /** A metric comes back from its series, but for id, creation time and fractions of
      a millisecond, exactly when its labels have no hoisted names and no empty values
      and its value is written as the number would be. */
  lemma SeriesRoundTripIff(
      ts: Series, m: Metric, back: seq<Metric>, now: Time, parse: string -> real, format: real -> string)
    requires IsSeriesOf(ts, m, parse)
    requires |back| == |ts.samples|
    requires forall i :: 0 <= i < |back| ==> back[i] == MetricOf(LabelMap(ts.labels), ts.samples[i], now, format)
    ensures back == [Restored(m, now)] <==> Carries(m) && format(parse(m.value)) == m.value
  {
    SeriesLabelMap(ts, m, parse);
    AllLabelsCarry(m);
    if Carries(m) { HoistedFields(m); }
    assert |back| == 1;
    assert back == [back[0]];
  }

  // ---------------------------------------------- Parquet record to time series

  /** The fields of a record as labels: its name always, the others when set. */
  function BaseLabels(pm: ParquetMetric): seq<Label> {
    WithField(
      WithField(
        WithField([Label("__name__", pm.metricName)], "cluster_name", pm.clusterName),
        "cloud_account_id", pm.cloudAccountID),
      "node_name", pm.nodeName)
  }

  function WithField(labels: seq<Label>, name: string, value: string): seq<Label> {
    if value != "" then labels + [Label(name, value)] else labels
  }

  /** The labels text of a record; none when it is empty or no JSON object. */
  function Parsed(pm: ParquetMetric, c: Codec): Labels {
    if pm.labels == "" then map[]
    else match c.parseLabels(pm.labels) case Some(labels) => labels case None => map[]
  }

  ghost function Extra(pm: ParquetMetric, c: Codec): Labels {
    NonEmpty(Parsed(pm, c) - {"__name__"})
  }

  ghost predicate IsConversionOf(ts: Series, pm: ParquetMetric, c: Codec, parse: string -> real) {
    && Sorted(ts.labels)
    && multiset(ts.labels) == multiset(BaseLabels(pm)) + multiset(Entries(Extra(pm, c)))
    && ts.samples == [Sample(pm.timeStamp, parse(pm.value))]
  }

  /** The parsed labels added to the fields; text that is no JSON object adds none. */
  method AppendExtra(labels: seq<Label>, pm: ParquetMetric, c: Codec) returns (all: seq<Label>)
    ensures multiset(all) == multiset(labels) + multiset(Entries(Extra(pm, c)))
  {
    all := labels;
    assert Entries(NonEmpty(map[] - {"__name__"})) == {};
    if pm.labels != "" {
      var extraLabels := c.parseLabels(pm.labels);
      if extraLabels.Some? {
        all := AppendEntries(labels, extraLabels.value, {"__name__"});
      }
    }
  }

  /** convertSingle */
  method ConvertSingle(pm: ParquetMetric, c: Codec, parse: string -> real) returns (ts: Series)
    ensures IsConversionOf(ts, pm, c, parse)
  {
    var labels := [Label("__name__", pm.metricName)];
    if pm.clusterName != "" {
      labels := labels + [Label("cluster_name", pm.clusterName)];
    }
    if pm.cloudAccountID != "" {
      labels := labels + [Label("cloud_account_id", pm.cloudAccountID)];
    }
    if pm.nodeName != "" {
      labels := labels + [Label("node_name", pm.nodeName)];
    }
    assert labels == BaseLabels(pm);
    labels := AppendExtra(labels, pm, c);
    labels := SortByName(labels);
    ts := Series(labels, [Sample(pm.timeStamp, parse(pm.value))]);
  }

  /** A parsed label that names a field again that is set. */
  ghost predicate Clashes(pm: ParquetMetric, c: Codec) {
    || (pm.clusterName != "" && "cluster_name" in Extra(pm, c))
    || (pm.cloudAccountID != "" && "cloud_account_id" in Extra(pm, c))
    || (pm.nodeName != "" && "node_name" in Extra(pm, c))
  }

  lemma BaseLabelsIff(pm: ParquetMetric, l: Label)
    ensures DistinctNames(BaseLabels(pm))
    ensures l in BaseLabels(pm) <==>
              || l == Label("__name__", pm.metricName)
              || (pm.clusterName != "" && l == Label("cluster_name", pm.clusterName))
              || (pm.cloudAccountID != "" && l == Label("cloud_account_id", pm.cloudAccountID))
              || (pm.nodeName != "" && l == Label("node_name", pm.nodeName))
  {
  }

  /** Two lots of labels, distinct in themselves, have distinct names together
      exactly when they share none. */
  lemma UnionDistinctIff(all: seq<Label>, base: seq<Label>, extra: Labels)
    requires DistinctNames(base) && multiset(all) == multiset(base) + multiset(Entries(extra))
    ensures forall l :: l in all <==> l in base || l in Entries(extra)
    ensures DistinctNames(all) <==> forall l :: l in base ==> l.name !in extra
  {
    forall l
      ensures l in all <==> l in base || l in Entries(extra)
      ensures multiset(all)[l] == multiset(base)[l] + if l in Entries(extra) then 1 else 0
    {
      assert l in all <==> l in multiset(all);
      assert l in base <==> l in multiset(base);
    }
    DistinctNamesIff(all);
    DistinctNamesIff(base);
    if l :| l in base && l.name in extra {
      assert l in multiset(base);
      assert Label(l.name, extra[l.name]) in Entries(extra);
    } else {
      forall l
        ensures multiset(all)[l] <= 1
      {
        EntriesIff(extra, l);
        assert l in base <==> l in multiset(base);
      }
    }
  }

  /** A converted record is a proper series, its labels in strict order and none
      empty, exactly when it has a name and no label repeats a field. */
  lemma ProperSeriesIff(ts: Series, pm: ParquetMetric, c: Codec, parse: string -> real)
    requires IsConversionOf(ts, pm, c, parse)
    ensures StrictlySorted(ts.labels) <==> !Clashes(pm, c)
    ensures (forall l :: l in ts.labels ==> l.value != "") <==> pm.metricName != ""
  {
    BaseLabelsIff(pm, Label("__name__", pm.metricName));
    UnionDistinctIff(ts.labels, BaseLabels(pm), Extra(pm, c));
    StrictlySortedIff(ts.labels);
    ClashesIff(pm, c);
    forall l
      ensures l in BaseLabels(pm) && l.value == "" ==> l == Label("__name__", pm.metricName) && pm.metricName == ""
    {
      BaseLabelsIff(pm, l);
    }
    assert forall l :: l in Entries(Extra(pm, c)) ==> l.value != "";
    assert Label("__name__", pm.metricName) in ts.labels;
  }

  lemma ClashesIff(pm: ParquetMetric, c: Codec)
    ensures Clashes(pm, c) <==> exists l :: l in BaseLabels(pm) && l.name in Extra(pm, c)
  {
    forall l
      ensures l in BaseLabels(pm) <==>
                || l == Label("__name__", pm.metricName)
                || (pm.clusterName != "" && l == Label("cluster_name", pm.clusterName))
                || (pm.cloudAccountID != "" && l == Label("cloud_account_id", pm.cloudAccountID))
                || (pm.nodeName != "" && l == Label("node_name", pm.nodeName))
    {
      BaseLabelsIff(pm, l);
    }
    assert Label("cluster_name", pm.clusterName).name == "cluster_name";
    assert Label("cloud_account_id", pm.cloudAccountID).name == "cloud_account_id";
    assert Label("node_name", pm.nodeName).name == "node_name";
  }

  /** What the labels of a converted record spell when none repeats a field. */
  ghost function RecordLabels(pm: ParquetMetric, c: Codec): Labels {
    WithKey(
      WithKey(
        WithKey(Extra(pm, c)["__name__" := pm.metricName], "cluster_name", pm.clusterName),
        "cloud_account_id", pm.cloudAccountID),
      "node_name", pm.nodeName)
  }

  ghost function WithKey(labels: Labels, name: string, value: string): Labels {
    if value != "" then labels[name := value] else labels
  }

  lemma ConvertedLabelMap(ts: Series, pm: ParquetMetric, c: Codec, parse: string -> real)
    requires IsConversionOf(ts, pm, c, parse) && !Clashes(pm, c)
    ensures LabelMap(ts.labels) == RecordLabels(pm, c)
  {
    ProperSeriesIff(ts, pm, c, parse);
    StrictIsDistinct(ts.labels);
    var a, b := LabelMap(ts.labels), RecordLabels(pm, c);
    forall k
      ensures k in a <==> k in b
      ensures k in a ==> a[k] == b[k]
    {
      if k in a {
        LabelMapIff(ts.labels, Label(k, a[k]));
        ConvertedIff(ts, pm, c, parse, Label(k, a[k]));
      }
      if k in b {
        LabelMapIff(ts.labels, Label(k, b[k]));
        ConvertedIff(ts, pm, c, parse, Label(k, b[k]));
      }
    }
  }

  ghost predicate Has(labels: Labels, l: Label) {
    l.name in labels && labels[l.name] == l.value
  }

  lemma HasWithKey(labels: Labels, name: string, value: string, l: Label)
    requires value != "" ==> name !in labels
    ensures Has(WithKey(labels, name, value), l) <==> Has(labels, l) || (value != "" && l == Label(name, value))
  {
  }

  lemma ConvertedIff(ts: Series, pm: ParquetMetric, c: Codec, parse: string -> real, l: Label)
    requires IsConversionOf(ts, pm, c, parse) && !Clashes(pm, c)
    ensures l in ts.labels <==> Has(RecordLabels(pm, c), l)
  {
    BaseLabelsIff(pm, l);
    UnionDistinctIff(ts.labels, BaseLabels(pm), Extra(pm, c));
    EntriesIff(Extra(pm, c), l);
    RecordLabelsIff(pm, c, l);
  }

  lemma RecordLabelsIff(pm: ParquetMetric, c: Codec, l: Label)
    requires !Clashes(pm, c)
    ensures Has(RecordLabels(pm, c), l) <==>
              || Has(Extra(pm, c), l)
              || l == Label("__name__", pm.metricName)
              || (pm.clusterName != "" && l == Label("cluster_name", pm.clusterName))
              || (pm.cloudAccountID != "" && l == Label("cloud_account_id", pm.cloudAccountID))
              || (pm.nodeName != "" && l == Label("node_name", pm.nodeName))
  {
    var named := Extra(pm, c)["__name__" := pm.metricName];
    var clustered := WithKey(named, "cluster_name", pm.clusterName);
    var accounted := WithKey(clustered, "cloud_account_id", pm.cloudAccountID);
    HasWithKey(named, "cluster_name", pm.clusterName, l);
    HasWithKey(clustered, "cloud_account_id", pm.cloudAccountID, l);
    HasWithKey(accounted, "node_name", pm.nodeName, l);
  }

  lemma HoistedKeyDrops(labels: Labels, name: string, value: string)
    requires name in SERIES_HOISTED
    ensures WithKey(labels, name, value) - SERIES_HOISTED == labels - SERIES_HOISTED
  {
  }

  lemma OtherKeyStays(labels: Labels, name: string, value: string)
    requires name !in SERIES_HOISTED
    ensures WithKey(labels, name, value) - SERIES_HOISTED == WithKey(labels - SERIES_HOISTED, name, value)
  {
  }

  /** The record's labels without the hoisted ones. */
  lemma RecordLabelsRest(m: Metric, c: Codec)
    requires Lawful(c) && c.labelsText(FullLabels(m)) != ""
    ensures RecordLabels(Parquet(m, c), c) - SERIES_HOISTED
            == WithKey(NonEmpty(m.labels) - SERIES_HOISTED, "node_name", m.nodeName)
  {
    var pm := Parquet(m, c);
    var extra := Extra(pm, c);
    var named := extra["__name__" := pm.metricName];
    var clustered := WithKey(named, "cluster_name", pm.clusterName);
    var accounted := WithKey(clustered, "cloud_account_id", pm.cloudAccountID);
    OtherKeyStays(accounted, "node_name", pm.nodeName);
    HoistedKeyDrops(clustered, "cloud_account_id", pm.cloudAccountID);
    HoistedKeyDrops(named, "cluster_name", pm.clusterName);
    assert named - SERIES_HOISTED == extra - SERIES_HOISTED;
    ExtraRest(m, c);
  }

  lemma ExtraRest(m: Metric, c: Codec)
    requires Lawful(c) && c.labelsText(FullLabels(m)) != ""
    ensures Extra(Parquet(m, c), c) == NonEmpty(FullLabels(m) - {"__name__"})
    ensures Extra(Parquet(m, c), c) - SERIES_HOISTED == NonEmpty(m.labels) - SERIES_HOISTED
  {
    assert forall k :: k !in SERIES_HOISTED && k in m.labels ==> k in FullLabels(m) && FullLabels(m)[k] == m.labels[k];
    assert forall k :: k !in SERIES_HOISTED && k in FullLabels(m) ==> k in m.labels;
  }

  lemma RecordLabelsCarry(m: Metric, c: Codec)
    requires Lawful(c) && c.labelsText(FullLabels(m)) != ""
    requires !Clashes(Parquet(m, c), c)
    ensures var l := RecordLabels(Parquet(m, c), c);
            l - SERIES_HOISTED == m.labels <==> Carries(m) && m.nodeName == ""
  {
    RecordLabelsRest(m, c);
    ExtraRest(m, c);
    assert m.nodeName != "" ==> "node_name" !in Extra(Parquet(m, c), c);
    RestCarries(m.labels, "node_name", m.nodeName);
  }

  lemma RestCarries(labels: Labels, name: string, value: string)
    requires name !in SERIES_HOISTED
    requires value != "" ==> name !in NonEmpty(labels) - SERIES_HOISTED
    ensures WithKey(NonEmpty(labels) - SERIES_HOISTED, name, value) == labels
            <==> labels.Keys !! SERIES_HOISTED && NonEmpty(labels) == labels && value == ""
  {
    var l := WithKey(NonEmpty(labels) - SERIES_HOISTED, name, value);
    if k :| k in labels && k in SERIES_HOISTED {
      assert k !in l;
    } else if k :| k in labels && labels[k] == "" {
      assert k in l ==> l[k] != "";
    } else {
      assert NonEmpty(labels) - SERIES_HOISTED == labels;
      if value != "" { assert name in l; }
    }
  }

  /** A metric written as a record and then as a proper series comes back under the
      same condition only when it has no node: with one, the record's node field is
      sent besides the label, under a name of its own. */
  lemma RecordRoundTripIff(
      ts: Series, m: Metric, c: Codec, back: seq<Metric>, now: Time, parse: string -> real, format: real -> string)
    requires Lawful(c) && c.labelsText(FullLabels(m)) != ""
    requires IsConversionOf(ts, Parquet(m, c), c, parse) && StrictlySorted(ts.labels)
    requires |back| == |ts.samples|
    requires forall i :: 0 <= i < |back| ==> back[i] == MetricOf(LabelMap(ts.labels), ts.samples[i], now, format)
    ensures back == [Restored(m, now)]
            <==> Carries(m) && m.nodeName == "" && format(parse(m.value)) == m.value
  {
    RecordIsRead(ts, m, c, back, now, parse, format);
    RecordBackIff(m, c, now, parse(m.value), format);
    var sample := Sample(UnixMilli(m.timeStamp), parse(m.value));
    SingletonsAreEqualIff(MetricOf(RecordLabels(Parquet(m, c), c), sample, now, format), Restored(m, now));
  }

  lemma SingletonsAreEqualIff(a: Metric, b: Metric)
    ensures [a] == [b] <==> a == b
  {
    assert [a][0] == a && [b][0] == b;
  }

  /** Reading a proper series of a record reads the record's labels. */
  lemma RecordIsRead(
      ts: Series, m: Metric, c: Codec, back: seq<Metric>, now: Time, parse: string -> real, format: real -> string)
    requires IsConversionOf(ts, Parquet(m, c), c, parse) && StrictlySorted(ts.labels)
    requires |back| == |ts.samples|
    requires forall i :: 0 <= i < |back| ==> back[i] == MetricOf(LabelMap(ts.labels), ts.samples[i], now, format)
    ensures !Clashes(Parquet(m, c), c)
    ensures var sample := Sample(UnixMilli(m.timeStamp), parse(m.value));
            back == [MetricOf(RecordLabels(Parquet(m, c), c), sample, now, format)]
  {
    ProperSeriesIff(ts, Parquet(m, c), c, parse);
    ConvertedLabelMap(ts, Parquet(m, c), c, parse);
    assert |back| == 1;
    assert back == [back[0]];
  }

  ghost predicate FieldsAre(l: Labels, m: Metric) {
    && Get(l, "cluster_name", "") == m.clusterName && Get(l, "cloud_account_id", "") == m.cloudAccountID
    && Get(l, "__name__", "") == m.metricName && Get(l, "node", "") == m.nodeName
  }

  lemma RecordBackIff(m: Metric, c: Codec, now: Time, value: real, format: real -> string)
    requires Lawful(c) && c.labelsText(FullLabels(m)) != ""
    requires !Clashes(Parquet(m, c), c)
    ensures MetricOf(RecordLabels(Parquet(m, c), c), Sample(UnixMilli(m.timeStamp), value), now, format)
            == Restored(m, now)
            <==> Carries(m) && m.nodeName == "" && format(value) == m.value
  {
    RecordLabelsCarry(m, c);
    if Carries(m) { RecordFields(m, c); }
    MetricOfIsRestoredIff(RecordLabels(Parquet(m, c), c), m, now, value, format);
  }

  /** Reading restores a metric when labels, hoisted fields and value come out right. */
  lemma MetricOfIsRestoredIff(l: Labels, m: Metric, now: Time, value: real, format: real -> string)
    ensures MetricOf(l, Sample(UnixMilli(m.timeStamp), value), now, format) == Restored(m, now)
            <==> l - SERIES_HOISTED == m.labels && format(value) == m.value && FieldsAre(l, m)
  {
  }

  lemma RecordFields(m: Metric, c: Codec)
    requires Lawful(c) && c.labelsText(FullLabels(m)) != ""
    requires Carries(m)
    ensures FieldsAre(RecordLabels(Parquet(m, c), c), m)
  {
    ExtraRest(m, c);
    assert "__name__" !in m.labels && "node" !in m.labels;
    assert "cluster_name" !in m.labels && "cloud_account_id" !in m.labels;
    var extra := Extra(Parquet(m, c), c);
    assert Get(extra, "node", "") == m.nodeName;
    assert "cluster_name" !in extra && "cloud_account_id" !in extra;
  }

  /** What does come back of a metric with a node: everything, and the node once more
      as a label `node_name`. */
  lemma RecordNodeComesBackTwice(
      ts: Series, m: Metric, c: Codec, back: seq<Metric>, now: Time, parse: string -> real, format: real -> string)
    requires Lawful(c) && c.labelsText(FullLabels(m)) != ""
    requires IsConversionOf(ts, Parquet(m, c), c, parse) && StrictlySorted(ts.labels)
    requires |back| == |ts.samples|
    requires forall i :: 0 <= i < |back| ==> back[i] == MetricOf(LabelMap(ts.labels), ts.samples[i], now, format)
    requires Carries(m) && m.nodeName != "" && format(parse(m.value)) == m.value
    ensures back == [Restored(m, now).(labels := m.labels["node_name" := m.nodeName])]
  {
    RecordIsRead(ts, m, c, back, now, parse, format);
    RecordLabelsRest(m, c);
    RecordFields(m, c);
    CarriedRest(m);
  }

  lemma CarriedRest(m: Metric)
    requires Carries(m)
    ensures NonEmpty(m.labels) - SERIES_HOISTED == m.labels
  {
  }

  /** For instance a metric with a cluster whose labels name a cluster too: its record
      makes a series with the name `cluster_name` twice. */
  lemma ClusterLabelIsSentTwice(ts: Series, m: Metric, c: Codec, parse: string -> real)
    requires Lawful(c) && c.labelsText(FullLabels(m)) != ""
    requires IsConversionOf(ts, Parquet(m, c), c, parse)
    requires m.clusterName != "" && Get(m.labels, "cluster_name", "") != ""
    ensures !StrictlySorted(ts.labels)
  {
    ExtraRest(m, c);
    assert "cluster_name" in FullLabels(m) && FullLabels(m)["cluster_name"] != "";
    assert "cluster_name" in Extra(Parquet(m, c), c);
    ProperSeriesIff(ts, Parquet(m, c), c, parse);
  }

  /** In a metric's series the fields that are set are labels of these names, over labels
      the metric may have of the same names. */
  lemma SeriesNamesItsFields(ts: Series, m: Metric, parse: string -> real, value: string)
    requires IsSeriesOf(ts, m, parse)
    ensures m.metricName != "" ==> (Label("__name__", value) in ts.labels <==> value == m.metricName)
    ensures m.nodeName != "" ==> (Label("node", value) in ts.labels <==> value == m.nodeName)
    ensures m.clusterName != "" ==> (Label("cluster_name", value) in ts.labels <==> value == m.clusterName)
    ensures m.cloudAccountID != "" ==> (Label("cloud_account_id", value) in ts.labels <==> value == m.cloudAccountID)
  {
    AllLabelsHave(m);
    SeriesHas(ts, m, parse, "__name__", value);
    SeriesHas(ts, m, parse, "node", value);
    SeriesHas(ts, m, parse, "cluster_name", value);
    SeriesHas(ts, m, parse, "cloud_account_id", value);
  }

  lemma SeriesHas(ts: Series, m: Metric, parse: string -> real, name: string, value: string)
    requires IsSeriesOf(ts, m, parse)
    ensures Label(name, value) in ts.labels <==> value != "" && name in AllLabels(m) && AllLabels(m)[name] == value
  {
    EntriesIff(NonEmpty(AllLabels(m)), Label(name, value));
  }

  lemma AllLabelsHave(m: Metric)
    ensures m.metricName != "" ==> "__name__" in AllLabels(m) && AllLabels(m)["__name__"] == m.metricName
    ensures m.nodeName != "" ==> "node" in AllLabels(m) && AllLabels(m)["node"] == m.nodeName
    ensures m.clusterName != "" ==> "cluster_name" in AllLabels(m) && AllLabels(m)["cluster_name"] == m.clusterName
    ensures m.cloudAccountID != "" ==>
              "cloud_account_id" in AllLabels(m) && AllLabels(m)["cloud_account_id"] == m.cloudAccountID
  {
  }

  /** A metric read from a series: each field is the last value of its label, or empty, and
      the other labels are kept with their last values. */
  lemma ReadMetricTellsOf(ts: Series, s: Sample, now: Time, format: real -> string)
    ensures var m := MetricOf(LabelMap(ts.labels), s, now, format);
            && m.id == 0 && m.createdAt == now && m.timeStamp == s.timestamp * 1_000_000 && m.value == format(s.value)
            && LastIs(ts.labels, "__name__", m.metricName) && LastIs(ts.labels, "node", m.nodeName)
            && LastIs(ts.labels, "cluster_name", m.clusterName)
            && LastIs(ts.labels, "cloud_account_id", m.cloudAccountID)
            && (forall k :: k in m.labels <==>
                  Names(ts.labels, k) && k !in {"__name__", "node", "cluster_name", "cloud_account_id"})
            && (forall k :: k in m.labels ==> LastIs(ts.labels, k, m.labels[k]))
  {
    var m := MetricOf(LabelMap(ts.labels), s, now, format);
    GetIsLast(ts.labels, "__name__");
    GetIsLast(ts.labels, "node");
    GetIsLast(ts.labels, "cluster_name");
    GetIsLast(ts.labels, "cloud_account_id");
    forall k
      ensures k in m.labels <==>
                Names(ts.labels, k) && k !in {"__name__", "node", "cluster_name", "cloud_account_id"}
      ensures k in m.labels ==> LastIs(ts.labels, k, m.labels[k])
    {
      GetIsLast(ts.labels, k);
    }
  }
}
