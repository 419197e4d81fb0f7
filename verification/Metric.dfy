/** The metric record and its JSON and Parquet forms (app/types/metric.go). */
module Metrics {
  import opened Text

  const NANOS_PER_MILLI := 1_000_000

  /** An instant in nanoseconds whose milliseconds fit 64 bits. */
  type Time = t: int | -0x8000_0000_0000_0000 <= t / NANOS_PER_MILLI < 0x8000_0000_0000_0000

  function UnixMilli(t: Time): Int64 {
    t / NANOS_PER_MILLI
  }

  function FromMilli(ms: Int64): Time {
    ms * NANOS_PER_MILLI
  }

  const EPOCH: Time := 0

  type Labels = map<string, string>

  datatype Metric = Metric(
    id: nat, clusterName: string, cloudAccountID: string, metricName: string, nodeName: string,
    createdAt: Time, timeStamp: Time, labels: Labels, value: string)

  const ZERO := Metric(0, "", "", "", "", EPOCH, EPOCH, map[], "")

  /** The labels that are kept as fields of their own. */
  const HOISTED: set<string> := {"__name__", "node"}

  predicate IsClean(m: Metric) {
    m.labels.Keys !! HOISTED
  }

  /** What JSON and Parquet can hold of the times. */
  function ToMillis(m: Metric): Metric {
    m.(createdAt := FromMilli(UnixMilli(m.createdAt)), timeStamp := FromMilli(UnixMilli(m.timeStamp)))
  }

  function Get(labels: Labels, name: string, default: string): string {
    if name in labels then labels[name] else default
  }

  /** Importing labels: the hoisted ones set their fields, the others are added. */
  function Imported(m: Metric, labels: Labels): Metric {
    m.(metricName := Get(labels, "__name__", m.metricName),
       nodeName := Get(labels, "node", m.nodeName),
       labels := m.labels + (labels - HOISTED))
  }

  /** FullLabels: the hoisted fields that are set, put back over the labels. */
  function FullLabels(m: Metric): Labels {
    var named := if m.metricName != "" then m.labels["__name__" := m.metricName] else m.labels;
    if m.nodeName != "" then named["node" := m.nodeName] else named
  }

  // ------------------------------------------------------------------ forms

  /** Texts whose syntax is a library's: ids, where a failed parse still yields some
      value, and labels as a JSON object. */
  datatype Codec = Codec(
    idText: nat -> string, parseId: string -> Option<nat>, failedId: string -> nat,
    labelsText: Labels -> string, parseLabels: string -> Option<Labels>)

  ghost predicate Lawful(c: Codec) {
    (forall id: nat :: c.parseId(c.idText(id)) == Some(id)) && forall l :: c.parseLabels(c.labelsText(l)) == Some(l)
  }

  datatype JsonMetric = JsonMetric(
    id: string, clusterName: string, cloudAccountID: string, metricName: string, nodeName: string,
    createdAt: string, timeStamp: string, labels: Labels, value: string)

  function JSON(m: Metric, c: Codec): JsonMetric {
    JsonMetric(c.idText(m.id), m.clusterName, m.cloudAccountID, m.metricName, m.nodeName,
               FormatInt(UnixMilli(m.createdAt)), FormatInt(UnixMilli(m.timeStamp)), m.labels, m.value)
  }

  datatype ParquetMetric = ParquetMetric(
    clusterName: string, cloudAccountID: string, metricName: string, nodeName: string,
    createdAt: Int64, timeStamp: Int64, labels: string, value: string)

  function Parquet(m: Metric, c: Codec): ParquetMetric {
    ParquetMetric(m.clusterName, m.cloudAccountID, m.metricName, m.nodeName,
                  UnixMilli(m.createdAt), UnixMilli(m.timeStamp), c.labelsText(FullLabels(m)), m.value)
  }

  predicate Parses(j: JsonMetric, c: Codec) {
    c.parseId(j.id).Some? && ParseInt(j.createdAt).Some? && ParseInt(j.timeStamp).Some?
  }

  /** The receiver after a successful UnmarshalJSON. */
  function Unmarshaled(m: Metric, j: JsonMetric, c: Codec): Metric
    requires Parses(j, c)
  {
    Imported(
      Metric(c.parseId(j.id).value, j.clusterName, j.cloudAccountID, j.metricName, j.nodeName,
             FromMilli(ParseInt(j.createdAt).value), FromMilli(ParseInt(j.timeStamp).value), m.labels, j.value),
      j.labels)
  }

  /** The receiver after a failing one: as far as the fields could be parsed, in order. */
  function PartlyUnmarshaled(m: Metric, j: JsonMetric, c: Codec): Metric {
    if c.parseId(j.id) == None then m.(id := c.failedId(j.id))
    else
      var named := m.(id := c.parseId(j.id).value, clusterName := j.clusterName, cloudAccountID := j.cloudAccountID,
                      metricName := j.metricName, nodeName := j.nodeName, value := j.value);
      if ParseInt(j.createdAt) == None then named
      else named.(createdAt := FromMilli(ParseInt(j.createdAt).value))
  }

  /** ParquetMetric.Metric; labels that are no JSON object end the program. */
  function FromParquet(p: ParquetMetric, c: Codec): Option<Metric> {
    match c.parseLabels(p.labels)
    case None => None
    case Some(labels) =>
      Some(Imported(
        Metric(0, p.clusterName, p.cloudAccountID, p.metricName, p.nodeName,
               FromMilli(p.createdAt), FromMilli(p.timeStamp), map[], p.value),
        labels))
  }

  /** A metric as the target of the operations that update it in place. */
  class Receiver {
    var it: Metric

    constructor ()
      ensures it == ZERO
    {
      it := ZERO;
    }

    /** Whatever order the labels are visited in. */
    method ImportLabels(labels: Labels)
      modifies this
      ensures it == Imported(old(it), labels)
    {
      var dest := it.labels;
      var todo := labels.Keys;
      while todo != {}
        invariant todo <= labels.Keys
        invariant dest == it.labels + (labels - todo - HOISTED)
        invariant it == old(it).(
          metricName := Get(labels - todo, "__name__", old(it).metricName),
          nodeName := Get(labels - todo, "node", old(it).nodeName))
        decreases todo
      {
        var k :| k in todo;
        todo := todo - {k};
        if k == "__name__" {
          it := it.(metricName := labels[k]);
        } else if k == "node" {
          it := it.(nodeName := labels[k]);
        } else {
          dest := dest[k := labels[k]];
        }
      }
      assert labels - todo == labels;
      it := it.(labels := dest);
    }

    method UnmarshalJSON(aux: JsonMetric, c: Codec) returns (ok: bool)
      modifies this
      ensures ok <==> Parses(aux, c)
      ensures it == if ok then Unmarshaled(old(it), aux, c) else PartlyUnmarshaled(old(it), aux, c)
    {
      var id := c.parseId(aux.id);
      it := it.(id := if id.Some? then id.value else c.failedId(aux.id));
      if id == None {
        return false;
      }
      it := it.(clusterName := aux.clusterName, cloudAccountID := aux.cloudAccountID,
                metricName := aux.metricName, nodeName := aux.nodeName, value := aux.value);
      var createdAt := ParseInt(aux.createdAt);
      if createdAt == None {
        return false;
      }
      it := it.(createdAt := FromMilli(createdAt.value));
      var timeStamp := ParseInt(aux.timeStamp);
      if timeStamp == None {
        return false;
      }
      it := it.(timeStamp := FromMilli(timeStamp.value));
      ImportLabels(aux.labels);
      ok := true;
    }
  }

  // ------------------------------------------------------------ round trips

  /** Importing a clean metric's full labels restores name, node and labels. */
  lemma FullLabelsImportIff(m: Metric)
    ensures var blank := m.(labels := map[]);
            Imported(blank, FullLabels(m)) == m <==> IsClean(m)
  {
    var full := FullLabels(m);
    if IsClean(m) {
      assert full - HOISTED == m.labels;
      assert map[] + m.labels == m.labels;
    } else {
      var k :| k in m.labels && k in HOISTED;
      assert k !in full - HOISTED;
    }
  }

  /** Unmarshalling a marshalled metric restores every field, times to the
      millisecond, exactly when no label has a hoisted name. */
  lemma JsonRoundTripIff(m: Metric, c: Codec)
    requires Lawful(c)
    ensures Parses(JSON(m, c), c)
    ensures Unmarshaled(ZERO, JSON(m, c), c) == ToMillis(m) <==> IsClean(m)
  {
    JsonTimesParse(m, c);
    ImportedIntoNone(ToMillis(m));
  }

  lemma JsonTimesParse(m: Metric, c: Codec)
    requires Lawful(c)
    ensures Parses(JSON(m, c), c)
    ensures Unmarshaled(ZERO, JSON(m, c), c) == Imported(ToMillis(m).(labels := map[]), m.labels)
  {
    ParseFormatted(UnixMilli(m.createdAt));
    ParseFormatted(UnixMilli(m.timeStamp));
  }

  lemma ImportedIntoNone(m: Metric)
    ensures Imported(m.(labels := map[]), m.labels) == m <==> IsClean(m)
  {
    var r := Imported(m.(labels := map[]), m.labels);
    assert r.labels == m.labels - HOISTED;
    if IsClean(m) {
      assert m.labels - HOISTED == m.labels;
    } else {
      var k :| k in m.labels && k in HOISTED;
      assert k !in r.labels;
    }
  }

  /** The Parquet form restores every field but the id under the same condition. */
  lemma ParquetRoundTripIff(m: Metric, c: Codec)
    requires Lawful(c)
    ensures FromParquet(Parquet(m, c), c).Some?
    ensures FromParquet(Parquet(m, c), c).value == ToMillis(m).(id := 0) <==> IsClean(m)
  {
    var blank := ToMillis(m).(id := 0, labels := map[]);
    assert FromParquet(Parquet(m, c), c) == Some(Imported(blank, FullLabels(m)));
    FullLabelsImportIff(ToMillis(m).(id := 0));
  }

  /** Writing a metric twice writes the same: a second round trip changes nothing. */
  lemma MillisAreStable(m: Metric)
    ensures ToMillis(ToMillis(m)) == ToMillis(m)
    ensures 0 <= m.timeStamp - ToMillis(m).timeStamp < NANOS_PER_MILLI
  {
  }

  /** Two metrics have the same JSON form exactly when they agree in all fields, times to
      the millisecond; and the form has each field under its own name. */
  lemma JsonTellsApart(m: Metric, n: Metric, c: Codec)
    requires Lawful(c)
    ensures JSON(m, c) == JSON(n, c) <==> ToMillis(m) == ToMillis(n)
    ensures var j := JSON(m, c);
            && c.parseId(j.id) == Some(m.id) && j.labels == m.labels && j.value == m.value
            && j.clusterName == m.clusterName && j.cloudAccountID == m.cloudAccountID
            && j.metricName == m.metricName && j.nodeName == m.nodeName
            && ParseInt(j.createdAt) == Some(UnixMilli(m.createdAt))
            && ParseInt(j.timeStamp) == Some(UnixMilli(m.timeStamp))
  {
    JsonFields(m, c);
    JsonFields(n, c);
    assert c.parseId(c.idText(m.id)) == Some(m.id) && c.parseId(c.idText(n.id)) == Some(n.id);
    if JSON(m, c) == JSON(n, c) {
      assert UnixMilli(m.createdAt) == UnixMilli(n.createdAt) && UnixMilli(m.timeStamp) == UnixMilli(n.timeStamp);
    }
    if ToMillis(m) == ToMillis(n) {
      assert UnixMilli(ToMillis(m).createdAt) == UnixMilli(m.createdAt);
      assert UnixMilli(ToMillis(n).createdAt) == UnixMilli(n.createdAt);
      assert UnixMilli(ToMillis(m).timeStamp) == UnixMilli(m.timeStamp);
      assert UnixMilli(ToMillis(n).timeStamp) == UnixMilli(n.timeStamp);
    }
  }

  lemma JsonFields(m: Metric, c: Codec)
    requires Lawful(c)
    ensures ParseInt(JSON(m, c).createdAt) == Some(UnixMilli(m.createdAt))
    ensures ParseInt(JSON(m, c).timeStamp) == Some(UnixMilli(m.timeStamp))
  {
    ParseFormatted(UnixMilli(m.createdAt));
    ParseFormatted(UnixMilli(m.timeStamp));
  }

  /** The Parquet form has each field in its own column, and in the label column the
      labels with name and node put over them where these are set. */
  lemma ParquetColumns(m: Metric, c: Codec, name: string)
    requires Lawful(c)
    ensures var p := Parquet(m, c);
            && p.clusterName == m.clusterName && p.cloudAccountID == m.cloudAccountID
            && p.metricName == m.metricName && p.nodeName == m.nodeName && p.value == m.value
            && p.createdAt * NANOS_PER_MILLI <= m.createdAt < (p.createdAt + 1) * NANOS_PER_MILLI
            && p.timeStamp * NANOS_PER_MILLI <= m.timeStamp < (p.timeStamp + 1) * NANOS_PER_MILLI
            && c.parseLabels(p.labels).Some?
            && var l := c.parseLabels(p.labels).value;
               && (name == "__name__" && m.metricName != "" ==> name in l && l[name] == m.metricName)
               && (name == "node" && m.nodeName != "" ==> name in l && l[name] == m.nodeName)
               && ((name == "__name__" ==> m.metricName == "") && (name == "node" ==> m.nodeName == "") ==>
                     (name in l <==> name in m.labels) && (name in l ==> l[name] == m.labels[name]))
  {
    assert c.parseLabels(c.labelsText(FullLabels(m))) == Some(FullLabels(m));
  }

  /** Importing sets name and node if their labels are there, merges the other labels over
      those already there, and changes nothing else. */
  lemma ImportingMerges(m: Metric, labels: Labels, k: string)
    ensures var r := Imported(m, labels);
            && r == m.(metricName := r.metricName, nodeName := r.nodeName, labels := r.labels)
            && (if "__name__" in labels then r.metricName == labels["__name__"] else r.metricName == m.metricName)
            && (if "node" in labels then r.nodeName == labels["node"] else r.nodeName == m.nodeName)
            && (if k in labels && k != "__name__" && k != "node" then k in r.labels && r.labels[k] == labels[k]
                else (k in r.labels <==> k in m.labels) && (k in r.labels ==> r.labels[k] == m.labels[k]))
  {
  }

  /** Unmarshalling takes every field from its own entry, but name and node from their
      labels where there are such. */
  lemma UnmarshallingReads(m: Metric, j: JsonMetric, c: Codec)
    requires Parses(j, c)
    ensures var r := Unmarshaled(m, j, c);
            && Some(r.id) == c.parseId(j.id) && r.value == j.value
            && r.clusterName == j.clusterName && r.cloudAccountID == j.cloudAccountID
            && r.metricName == (if "__name__" in j.labels then j.labels["__name__"] else j.metricName)
            && r.nodeName == (if "node" in j.labels then j.labels["node"] else j.nodeName)
            && Some(UnixMilli(r.createdAt)) == ParseInt(j.createdAt)
            && Some(UnixMilli(r.timeStamp)) == ParseInt(j.timeStamp)
  {
  }
}
