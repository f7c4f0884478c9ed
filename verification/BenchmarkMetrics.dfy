/** What a record says of its input, field by field: sums, means and maxima of the numbers that
    stand in the input, told without the parsers. */
module BenchmarkMetrics {
  import opened Wrappers
  import opened JsonValue
  import opened BenchmarkRecord

  // ----- numbers in JSON -----

  /** What stands in `v` under the keys of `path`, one inside the other. */
  function Field(v: Json, path: seq<string>): Option<Json> {
    if path == [] then Some(v)
    else if v.JObject? && path[0] in v.fields then Field(v.fields[path[0]], path[1..])
    else None
  }

  /** A nonnegative number. */
  predicate IsNumber(v: Json, r: real) {
    r >= 0.0 && (v == JFloat(r) || (v.JInt? && v.n as real == r))
  }

  predicate HasNumber(v: Json, path: seq<string>, r: real) {
    Field(v, path).Some? && IsNumber(Field(v, path).value, r)
  }

  function Sum(rs: seq<real>): real {
    if rs == [] then 0.0 else rs[0] + Sum(rs[1..])
  }

  function Mean(rs: seq<real>): real
    requires rs != []
  {
    Sum(rs) / (|rs| as real)
  }

  /** `m` is the greatest of them. */
  predicate IsGreatest(rs: seq<real>, m: real) {
    (exists i | 0 <= i < |rs| :: rs[i] == m) && forall i | 0 <= i < |rs| :: rs[i] <= m
  }

  lemma {:induction false} SumOfFront(rs: seq<real>)
    requires rs != []
    ensures Sum(rs) == Sum(rs[..|rs| - 1]) + rs[|rs| - 1]
    decreases |rs|
  {
    if |rs| > 1 {
      SumOfFront(rs[1..]);
      assert rs[1..][..|rs| - 2] == rs[..|rs| - 1][1..];
    }
  }

  /** The totals of the parsers are sums. */
  lemma {:induction false} TotalIsSum<T>(rows: seq<T>, f: T -> Amount, rs: seq<real>)
    requires |rs| == |rows| && forall i | 0 <= i < |rows| :: rs[i] == f(rows[i])
    ensures Total(rows, f) == Sum(rs)
    decreases |rows|
  {
    if rows != [] {
      SumOfFront(rs);
      TotalIsSum(rows[..|rows| - 1], f, rs[..|rs| - 1]);
    }
  }

  lemma NumIff(v: Json, r: real)
    ensures Num(Some(v)) == Some(r) <==> IsNumber(v, r)
  {}

  lemma NumberIsNum(row: Row, key: string, r: real)
    ensures HasNumber(JObject(row), [key], r) <==> Num(Get(row, key)) == Some(r)
  {
    assert [key][1..] == [];
    if key in row { NumIff(row[key], r); assert Field(JObject(row), [key]) == Field(row[key], []) == Some(row[key]); }
  }

  // ----- fio -----

  /** The numbers of one direction, job by job. */
  datatype Readings = Readings(iops: seq<real>, bandwidth: seq<real>, latency: seq<real>)

  /** What job `job` says of the direction `op`; a job without an object "lat_ns" counts as 0. */
  predicate JobSays(job: Json, op: string, iops: real, bandwidth: real, latency: real) {
    && HasNumber(job, [op, "iops"], iops) && HasNumber(job, [op, "bw_bytes"], bandwidth)
    && match Field(job, [op, "lat_ns"])
       case Some(JObject(_)) => HasNumber(job, [op, "lat_ns", "mean"], latency)
       case _ => latency == 0.0
  }

  predicate AllSay(jobs: seq<Json>, op: string, readings: Readings) {
    && |readings.iops| == |readings.bandwidth| == |readings.latency| == |jobs|
    && forall i | 0 <= i < |jobs| :: JobSays(jobs[i], op, readings.iops[i], readings.bandwidth[i], readings.latency[i])
  }

  lemma FieldInside(job: Json, op: string, path: seq<string>)
    ensures Field(job, [op] + path) ==
      if job.JObject? && op in job.fields then Field(job.fields[op], path) else None
  {
    assert ([op] + path)[1..] == path;
  }

  lemma SectionIff(job: Json, op: string, iops: real, bandwidth: real, latency: real)
    ensures JobSays(job, op, iops, bandwidth, latency) <==>
      && iops >= 0.0 && bandwidth >= 0.0 && latency >= 0.0
      && SectionOf(job, op) == Some(Section(iops, bandwidth, latency))
  {
    var a, b, c, d := ["iops"], ["bw_bytes"], ["lat_ns"], ["lat_ns", "mean"];
    FieldInside(job, op, a);
    FieldInside(job, op, b);
    FieldInside(job, op, c);
    FieldInside(job, op, d);
    assert [op] + a == [op, "iops"] && [op] + b == [op, "bw_bytes"] && [op] + c == [op, "lat_ns"];
    assert [op] + d == [op, "lat_ns", "mean"];
    if job.JObject? && op in job.fields && job.fields[op].JObject? {
      var section := job.fields[op].fields;
      NumberIsNum(section, "iops", iops);
      NumberIsNum(section, "bw_bytes", bandwidth);
      LatencyInside(job.fields[op], section, latency);
    }
  }

  lemma LatencyInside(v: Json, section: Row, latency: real)
    requires v == JObject(section)
    ensures Field(v, ["lat_ns"]) == Get(section, "lat_ns")
    ensures
      match Get(section, "lat_ns")
      case Some(JObject(l)) => HasNumber(v, ["lat_ns", "mean"], latency) <==> Num(Get(l, "mean")) == Some(latency)
      case _ => true
  {
    assert ["lat_ns"][1..] == [] && ["lat_ns", "mean"][1..] == ["mean"];
    match Get(section, "lat_ns")
    case Some(JObject(l)) =>
      assert Field(v, ["lat_ns", "mean"]) == Field(JObject(l), ["mean"]);
      NumberIsNum(l, "mean", latency);
    case _ =>
  }

  lemma FrontSays(jobs: seq<Json>, op: string, readings: Readings, n: nat, front: Readings)
    requires AllSay(jobs, op, readings) && n <= |jobs|
    requires front == Readings(readings.iops[..n], readings.bandwidth[..n], readings.latency[..n])
    ensures AllSay(jobs[..n], op, front)
  {
    forall i | 0 <= i < n ensures JobSays(jobs[..n][i], op, front.iops[i], front.bandwidth[i], front.latency[i]) {
      assert JobSays(jobs[i], op, readings.iops[i], readings.bandwidth[i], readings.latency[i]);
    }
  }

  lemma {:induction false} SectionsAre(jobs: seq<Json>, op: string, readings: Readings)
    requires AllSay(jobs, op, readings)
    ensures Sections(jobs, op).Some? && AreRead(Sections(jobs, op).value, readings, |jobs|)
    decreases |jobs|
  {
    if jobs != [] {
      var n := |jobs| - 1;
      var front := Readings(readings.iops[..n], readings.bandwidth[..n], readings.latency[..n]);
      FrontSays(jobs, op, readings, n, front);
      SectionsAre(jobs[..n], op, front);
      LastSays(jobs, op, readings, n);
      ReadOneMore(Sections(jobs[..n], op).value, front, readings, n, SectionOf(jobs[n], op).value);
    }
  }

  lemma ReadOneMore(sections: seq<Section>, front: Readings, readings: Readings, n: nat, last: Section)
    requires |readings.iops| == |readings.bandwidth| == |readings.latency| == n + 1
    requires front == Readings(readings.iops[..n], readings.bandwidth[..n], readings.latency[..n])
    requires AreRead(sections, front, n)
    requires last.iops == readings.iops[n] && last.bw == readings.bandwidth[n] && last.lat == readings.latency[n]
    ensures AreRead(sections + [last], readings, n + 1)
  {}

  lemma LastSays(jobs: seq<Json>, op: string, readings: Readings, n: nat)
    requires AllSay(jobs, op, readings) && n < |jobs|
    ensures SectionOf(jobs[n], op) == Some(Section(readings.iops[n], readings.bandwidth[n], readings.latency[n]))
  {
    SectionIff(jobs[n], op, readings.iops[n], readings.bandwidth[n], readings.latency[n]);
  }

  predicate AreRead(sections: seq<Section>, readings: Readings, n: nat) {
    && |sections| == |readings.iops| == |readings.bandwidth| == |readings.latency| == n
    && forall i | 0 <= i < n ::
      sections[i].iops == readings.iops[i] && sections[i].bw == readings.bandwidth[i] && sections[i].lat == readings.latency[i]
  }

  lemma {:induction false} SectionsSay(jobs: seq<Json>, op: string) returns (readings: Readings)
    requires Sections(jobs, op).Some?
    ensures AllSay(jobs, op, readings)
    decreases |jobs|
  {
    if jobs == [] {
      readings := Readings([], [], []);
    } else {
      var n := |jobs| - 1;
      var front := SectionsSay(jobs[..n], op);
      var Section(iops, bandwidth, latency) := SectionOf(jobs[n], op).value;
      SectionIff(jobs[n], op, iops, bandwidth, latency);
      readings := Readings(front.iops + [iops], front.bandwidth + [bandwidth], front.latency + [latency]);
      forall i | 0 <= i < |jobs|
        ensures JobSays(jobs[i], op, readings.iops[i], readings.bandwidth[i], readings.latency[i])
      {
        assert i < n ==> JobSays(jobs[..n][i], op, front.iops[i], front.bandwidth[i], front.latency[i]);
      }
    }
  }

  // ----- objects, by the text of their keys -----

  lemma RowSays(t: Table, n: Name, key: string)
    requires n in t && key == KeyOf(n)
    ensures key in ToRow(t) && ToRow(t)[key] == t[n]
  {
    RowHasTable(t);
  }

  lemma RowSaysOnly(t: Table, key: string)
    requires key in ToRow(t)
    ensures exists n :: n in t && key == KeyOf(n)
  {
    RowHasTable(t);
  }

  /** `key` has the value `v` and the unit `unit`. */
  predicate IsMetricOf(metrics: Row, units: Row, key: string, v: Json, unit: string) {
    Get(metrics, key) == Some(v) && Get(units, key) == Some(JStr(unit))
  }

  lemma MetricIs(p: Parsed, n: Name, key: string)
    requires n in p.metrics && n in p.units && key == KeyOf(n)
    ensures IsMetricOf(ToRow(p.metrics), ToRow(UnitTable(p.units)), key, p.metrics[n], UnitText(p.units[n]))
  {
    RowSays(p.metrics, n, key);
    RowSays(UnitTable(p.units), n, key);
  }

  // ----- what the fio metrics say -----

  /** The keys of one direction. */
  datatype Keys = Keys(iops: string, bandwidth: string, latency: string)
  const READ_KEYS := Keys("read_iops", "read_bw_bytes", "read_lat_ns_mean_avg")
  const WRITE_KEYS := Keys("write_iops", "write_bw_bytes", "write_lat_ns_mean_avg")

  /** One direction: the sums of what the jobs say, and the mean of their latencies. */
  predicate SumsUp(metrics: Row, units: Row, keys: Keys, readings: Readings) {
    && readings.latency != []
    && IsMetricOf(metrics, units, keys.iops, JFloat(Sum(readings.iops)), "iops")
    && IsMetricOf(metrics, units, keys.bandwidth, JFloat(Sum(readings.bandwidth)), "bytes_per_second")
    && IsMetricOf(metrics, units, keys.latency, JFloat(Mean(readings.latency)), "ns")
  }

  predicate IsTotalOf(section: Section, readings: Readings) {
    section.iops == Sum(readings.iops) && section.bw == Sum(readings.bandwidth) && section.lat == Sum(readings.latency)
  }

  lemma ReadingsAreTotal(jobs: seq<Json>, op: string, readings: Readings)
    requires AllSay(jobs, op, readings)
    ensures Sections(jobs, op).Some? && IsTotalOf(TotalSection(Sections(jobs, op).value), readings)
  {
    SectionsAre(jobs, op, readings);
    var sections := Sections(jobs, op).value;
    TotalIsSum(sections, IopsOf, readings.iops);
    TotalIsSum(sections, BwOf, readings.bandwidth);
    TotalIsSum(sections, LatOf, readings.latency);
  }

  /** The metric `n` and its unit. */
  predicate HoldsMetric(p: Parsed, n: Name, v: Json, u: Unit) {
    n in p.metrics && n in p.units && p.metrics[n] == v && p.units[n] == u
  }

  lemma DirectionSays(p: Parsed, a: Name, b: Name, c: Name, keys: Keys, readings: Readings)
    requires keys == Keys(KeyOf(a), KeyOf(b), KeyOf(c)) && readings.latency != []
    requires HoldsMetric(p, a, JFloat(Sum(readings.iops)), IopsUnit) && HoldsMetric(p, b, JFloat(Sum(readings.bandwidth)), BytesPerSecond)
    requires HoldsMetric(p, c, JFloat(Mean(readings.latency)), Ns)
    ensures SumsUp(ToRow(p.metrics), ToRow(UnitTable(p.units)), keys, readings)
  {
    MetricIs(p, a, keys.iops);
    MetricIs(p, b, keys.bandwidth);
    MetricIs(p, c, keys.latency);
  }

  lemma FioHolds(p: Parsed, n: nat, read: Section, write: Section)
    requires n > 0 && p == FioParsed(n, read, write)
    ensures HoldsMetric(p, ReadIops, JFloat(read.iops), IopsUnit) && HoldsMetric(p, ReadBw, JFloat(read.bw), BytesPerSecond)
    ensures HoldsMetric(p, ReadLat, JFloat(read.lat / (n as real)), Ns)
    ensures HoldsMetric(p, WriteIops, JFloat(write.iops), IopsUnit) && HoldsMetric(p, WriteBw, JFloat(write.bw), BytesPerSecond)
    ensures HoldsMetric(p, WriteLat, JFloat(write.lat / (n as real)), Ns)
  {}

  lemma ReadKeys()
    ensures READ_KEYS == Keys(KeyOf(ReadIops), KeyOf(ReadBw), KeyOf(ReadLat))
  {}

  lemma WriteKeys()
    ensures WRITE_KEYS == Keys(KeyOf(WriteIops), KeyOf(WriteBw), KeyOf(WriteLat))
  {}

  lemma DirectionsSumUp(p: Parsed, n: nat, readTotal: Section, writeTotal: Section, read: Readings, write: Readings)
    requires n > 0 && |read.latency| == |write.latency| == n && p == FioParsed(n, readTotal, writeTotal)
    requires IsTotalOf(readTotal, read) && IsTotalOf(writeTotal, write)
    ensures SumsUp(ToRow(p.metrics), ToRow(UnitTable(p.units)), READ_KEYS, read)
    ensures SumsUp(ToRow(p.metrics), ToRow(UnitTable(p.units)), WRITE_KEYS, write)
  {
    FioHolds(p, n, readTotal, writeTotal);
    ReadKeys();
    WriteKeys();
    DirectionSays(p, ReadIops, ReadBw, ReadLat, READ_KEYS, read);
    DirectionSays(p, WriteIops, WriteBw, WriteLat, WRITE_KEYS, write);
  }

  lemma JobsField(p: Parsed, n: nat, read: Section, write: Section)
    requires n > 0 && p == FioParsed(n, read, write)
    ensures IsMetricOf(ToRow(p.metrics), ToRow(UnitTable(p.units)), "jobs", JInt(n), "count")
    ensures p.metrics.Keys == {Jobs, ReadIops, ReadBw, ReadLat, WriteIops, WriteBw, WriteLat} && p.samples == p.runs == n
  {
    MetricIs(p, Jobs, "jobs");
  }

  /** The metrics of a fio input whose jobs say `read` and `write`. */
  lemma FioSumsUp(jobs: seq<Json>, read: Readings, write: Readings)
    requires jobs != [] && AllSay(jobs, "read", read) && AllSay(jobs, "write", write)
    ensures FioOf(Some(jobs)).Some?
    ensures
      var p := FioOf(Some(jobs)).value;
      var metrics, units := ToRow(p.metrics), ToRow(UnitTable(p.units));
      && SumsUp(metrics, units, READ_KEYS, read) && SumsUp(metrics, units, WRITE_KEYS, write)
      && IsMetricOf(metrics, units, "jobs", JInt(|jobs|), "count")
      && p.metrics.Keys == {Jobs, ReadIops, ReadBw, ReadLat, WriteIops, WriteBw, WriteLat} && p.samples == p.runs == |jobs|
  {
    ReadingsAreTotal(jobs, "read", read);
    ReadingsAreTotal(jobs, "write", write);
    var p, n := FioOf(Some(jobs)).value, |jobs|;
    var readTotal, writeTotal := TotalSection(Sections(jobs, "read").value), TotalSection(Sections(jobs, "write").value);
    DirectionsSumUp(p, n, readTotal, writeTotal, read, write);
    JobsField(p, n, readTotal, writeTotal);
  }

  /** A fio input is parsed iff there are jobs and all of them say what they read and wrote. */
  lemma FioIsParsedIff(jobs: seq<Json>)
    ensures FioOf(Some(jobs)).Some? <==>
      jobs != [] && (exists read :: AllSay(jobs, "read", read)) && exists write :: AllSay(jobs, "write", write)
  {
    if FioOf(Some(jobs)).Some? {
      var read := SectionsSay(jobs, "read");
      var write := SectionsSay(jobs, "write");
    }
    if jobs != [] && (exists read :: AllSay(jobs, "read", read)) && exists write :: AllSay(jobs, "write", write) {
      var read, write :| AllSay(jobs, "read", read) && AllSay(jobs, "write", write);
      FioSumsUp(jobs, read, write);
    }
  }

  /** One job, reading at 100 and writing nothing. */
  const ONE_JOB: Json := JObject(map[
    "read" := JObject(map["iops" := JInt(100), "bw_bytes" := JInt(409600)]),
    "write" := JObject(map["iops" := JInt(0), "bw_bytes" := JInt(0)])])
  const READS := Readings([100.0], [409600.0], [0.0])
  const WRITES := Readings([0.0], [0.0], [0.0])

  lemma OneJobSays()
    ensures AllSay([ONE_JOB], "read", READS) && AllSay([ONE_JOB], "write", WRITES)
  {
    PlainSectionSays(ONE_JOB, "read", ONE_JOB.fields["read"].fields, 100.0, 409600.0);
    PlainSectionSays(ONE_JOB, "write", ONE_JOB.fields["write"].fields, 0.0, 0.0);
  }

  lemma PlainSectionSays(job: Json, op: string, section: Row, iops: real, bandwidth: real)
    requires job.JObject? && Get(job.fields, op) == Some(JObject(section)) && iops >= 0.0 && bandwidth >= 0.0
    requires Num(Get(section, "iops")) == Some(iops) && Num(Get(section, "bw_bytes")) == Some(bandwidth) && "lat_ns" !in section
    ensures JobSays(job, op, iops, bandwidth, 0.0)
  {
    SectionIff(job, op, iops, bandwidth, 0.0);
  }

  lemma SumOfOne(r: real)
    ensures Sum([r]) == r && Mean([r]) == r
  {
    assert [r][1..] == [];
  }

  /** What is read is recorded as read, and what is written as written. */
  lemma OneJobIsRecorded()
    ensures FioOf(Some([ONE_JOB])).Some?
    ensures
      var metrics := ToRow(FioOf(Some([ONE_JOB])).value.metrics);
      && Get(metrics, "read_iops") == Some(JFloat(100.0)) && Get(metrics, "read_bw_bytes") == Some(JFloat(409600.0))
      && Get(metrics, "write_iops") == Some(JFloat(0.0)) && Get(metrics, "write_bw_bytes") == Some(JFloat(0.0))
  {
    OneJobSays();
    FioSumsUp([ONE_JOB], READS, WRITES);
    SumOfOne(100.0);
    SumOfOne(409600.0);
    SumOfOne(0.0);
  }

  // ----- what the cyclictest metrics say -----

  /** The numbers of all threads. */
  datatype Timings = Timings(cycles: seq<real>, mins: seq<real>, avgs: seq<real>, maxes: seq<real>)

  predicate AreTimings(rows: seq<Latency>, t: Timings) {
    && |t.cycles| == |t.mins| == |t.avgs| == |t.maxes| == |rows|
    && forall i | 0 <= i < |rows| ::
         rows[i].cycles == t.cycles[i] && rows[i].min == t.mins[i] && rows[i].avg == t.avgs[i] && rows[i].max == t.maxes[i]
  }

  predicate EntrySays(entry: Json, cycles: real, min: real, avg: real, max: real) {
    && HasNumber(entry, ["cycles"], cycles) && HasNumber(entry, ["min"], min)
    && HasNumber(entry, ["avg"], avg) && HasNumber(entry, ["max"], max)
  }

  predicate EntriesSay(entries: seq<Json>, t: Timings) {
    && |t.cycles| == |t.mins| == |t.avgs| == |t.maxes| == |entries|
    && forall i | 0 <= i < |entries| :: EntrySays(entries[i], t.cycles[i], t.mins[i], t.avgs[i], t.maxes[i])
  }

  lemma LatencyIff(entry: Json, cycles: real, min: real, avg: real, max: real)
    ensures EntrySays(entry, cycles, min, avg, max) <==>
      && cycles >= 0.0 && min >= 0.0 && avg >= 0.0 && max >= 0.0
      && LatencyOf(entry) == Some(Latency(cycles, min, avg, max))
  {
    if entry.JObject? {
      NumberIsNum(entry.fields, "cycles", cycles);
      NumberIsNum(entry.fields, "min", min);
      NumberIsNum(entry.fields, "avg", avg);
      NumberIsNum(entry.fields, "max", max);
    }
  }

  /** The entries of the thread object are read as they say. */
  lemma {:induction false} LatenciesIff(entries: seq<Json>, t: Timings)
    ensures EntriesSay(entries, t) <==> Latencies(entries).Some? && AreTimings(Latencies(entries).value, t)
    decreases |entries|
  {
    if entries != [] && |t.cycles| == |t.mins| == |t.avgs| == |t.maxes| == |entries| {
      var n := |entries| - 1;
      var front := Timings(t.cycles[..n], t.mins[..n], t.avgs[..n], t.maxes[..n]);
      LatenciesIff(entries[..n], front);
      LatencyIff(entries[n], t.cycles[n], t.mins[n], t.avgs[n], t.maxes[n]);
      EntriesSplit(entries, t, front);
      LatenciesHaveLength(entries[..n]);
      if Latencies(entries[..n]).Some? && LatencyOf(entries[n]).Some? {
        TimingsSplit(Latencies(entries[..n]).value, LatencyOf(entries[n]).value, t, front);
      }
    } else if entries != [] {
      LatenciesHaveLength(entries);
    }
  }

  lemma {:induction false} LatenciesHaveLength(entries: seq<Json>)
    ensures Latencies(entries).Some? ==> |Latencies(entries).value| == |entries|
    decreases |entries|
  {
    if entries != [] { LatenciesHaveLength(entries[..|entries| - 1]); }
  }

  lemma EntriesSplit(entries: seq<Json>, t: Timings, front: Timings)
    requires |t.cycles| == |t.mins| == |t.avgs| == |t.maxes| == |entries| > 0
    requires var n := |entries| - 1; front == Timings(t.cycles[..n], t.mins[..n], t.avgs[..n], t.maxes[..n])
    ensures
      var n := |entries| - 1;
      EntriesSay(entries, t) <==>
        EntriesSay(entries[..n], front) && EntrySays(entries[n], t.cycles[n], t.mins[n], t.avgs[n], t.maxes[n])
  {
    var n := |entries| - 1;
    assert forall i | 0 <= i < n :: entries[..n][i] == entries[i];
    if EntriesSay(entries[..n], front) && EntrySays(entries[n], t.cycles[n], t.mins[n], t.avgs[n], t.maxes[n]) {
      forall i | 0 <= i < |entries| ensures EntrySays(entries[i], t.cycles[i], t.mins[i], t.avgs[i], t.maxes[i]) {
        assert i < n ==> EntrySays(entries[..n][i], front.cycles[i], front.mins[i], front.avgs[i], front.maxes[i]);
      }
    }
  }

  lemma TimingsSplit(rows: seq<Latency>, last: Latency, t: Timings, front: Timings)
    requires |t.cycles| == |t.mins| == |t.avgs| == |t.maxes| == |rows| + 1
    requires var n := |rows|; front == Timings(t.cycles[..n], t.mins[..n], t.avgs[..n], t.maxes[..n])
    ensures
      var n := |rows|;
      AreTimings(rows + [last], t) <==>
        AreTimings(rows, front) && last.cycles == t.cycles[n] && last.min == t.mins[n] && last.avg == t.avgs[n] && last.max == t.maxes[n]
  {
    var all, n := rows + [last], |rows|;
    assert all[n] == last && forall i | 0 <= i < n :: all[i] == rows[i];
  }

  /** The largest of the parsers is the greatest. */
  lemma LargestIsGreatest<T>(rows: seq<T>, f: T -> Amount, rs: seq<real>)
    requires rows != [] && |rs| == |rows| && forall i | 0 <= i < |rows| :: rs[i] == f(rows[i])
    ensures IsGreatest(rs, Largest(rows, f))
  {
    LargestIsLargest(rows, f);
    var i :| 0 <= i < |rows| && f(rows[i]) == Largest(rows, f);
    assert rs[i] == Largest(rows, f);
  }

  /** The metrics of a cyclictest input: totals, means and the greatest maximum. */
  ghost predicate CyclicSumsUp(metrics: Row, units: Row, t: Timings) {
    && t.mins != [] && t.avgs != []
    && IsMetricOf(metrics, units, "threads", JInt(|t.cycles|), "count")
    && IsMetricOf(metrics, units, "cycles", JFloat(Sum(t.cycles)), "count")
    && IsMetricOf(metrics, units, "latency_min_us_avg", JFloat(Mean(t.mins)), "us")
    && IsMetricOf(metrics, units, "latency_avg_us_avg", JFloat(Mean(t.avgs)), "us")
    && exists m :: IsGreatest(t.maxes, m) && IsMetricOf(metrics, units, "latency_max_us", JFloat(m), "us")
  }

  lemma CyclicHolds(p: Parsed, rows: seq<Latency>, t: Timings, m: real)
    requires rows != [] && AreTimings(rows, t) && ParseCyclictestText(rows) == Some(p) && m == Largest(rows, MaxOf)
    ensures HoldsMetric(p, Threads, JInt(|rows|), Count) && HoldsMetric(p, Cycles, JFloat(Sum(t.cycles)), Count)
    ensures HoldsMetric(p, LatencyMin, JFloat(Mean(t.mins)), Us) && HoldsMetric(p, LatencyAvg, JFloat(Mean(t.avgs)), Us)
    ensures HoldsMetric(p, LatencyMax, JFloat(m), Us) && IsGreatest(t.maxes, m)
    ensures p.metrics.Keys == {Threads, Cycles, LatencyMin, LatencyAvg, LatencyMax}
    ensures p.samples == Sum(t.cycles).Floor && p.runs == |rows|
  {
    TotalIsSum(rows, CyclesOf, t.cycles);
    TotalIsSum(rows, MinOf, t.mins);
    TotalIsSum(rows, AvgOf, t.avgs);
    LargestIsGreatest(rows, MaxOf, t.maxes);
  }

  lemma ThreadsField(p: Parsed, v: Json)
    requires HoldsMetric(p, Threads, v, Count)
    ensures IsMetricOf(ToRow(p.metrics), ToRow(UnitTable(p.units)), "threads", v, "count")
  {
    MetricIs(p, Threads, "threads");
  }

  lemma CyclesField(p: Parsed, v: Json)
    requires HoldsMetric(p, Cycles, v, Count)
    ensures IsMetricOf(ToRow(p.metrics), ToRow(UnitTable(p.units)), "cycles", v, "count")
  {
    MetricIs(p, Cycles, "cycles");
  }

  lemma LatencyMinField(p: Parsed, v: Json)
    requires HoldsMetric(p, LatencyMin, v, Us)
    ensures IsMetricOf(ToRow(p.metrics), ToRow(UnitTable(p.units)), "latency_min_us_avg", v, "us")
  {
    MetricIs(p, LatencyMin, "latency_min_us_avg");
  }

  lemma LatencyAvgField(p: Parsed, v: Json)
    requires HoldsMetric(p, LatencyAvg, v, Us)
    ensures IsMetricOf(ToRow(p.metrics), ToRow(UnitTable(p.units)), "latency_avg_us_avg", v, "us")
  {
    MetricIs(p, LatencyAvg, "latency_avg_us_avg");
  }

  lemma LatencyMaxField(p: Parsed, v: Json)
    requires HoldsMetric(p, LatencyMax, v, Us)
    ensures IsMetricOf(ToRow(p.metrics), ToRow(UnitTable(p.units)), "latency_max_us", v, "us")
  {
    MetricIs(p, LatencyMax, "latency_max_us");
  }

  /** What the metrics of the rows say. */
  lemma CyclicRowsSumUp(rows: seq<Latency>, t: Timings)
    requires rows != [] && AreTimings(rows, t)
    ensures
      var p := ParseCyclictestText(rows).value;
      && CyclicSumsUp(ToRow(p.metrics), ToRow(UnitTable(p.units)), t)
      && p.metrics.Keys == {Threads, Cycles, LatencyMin, LatencyAvg, LatencyMax}
      && p.samples == Sum(t.cycles).Floor && p.runs == |rows|
  {
    var p, m := ParseCyclictestText(rows).value, Largest(rows, MaxOf);
    CyclicHolds(p, rows, t, m);
    ThreadsField(p, JInt(|rows|));
    CyclesField(p, JFloat(Sum(t.cycles)));
    LatencyMinField(p, JFloat(Mean(t.mins)));
    LatencyAvgField(p, JFloat(Mean(t.avgs)));
    LatencyMaxField(p, JFloat(m));
  }

  // ----- what the metrics of the other tools say -----

  datatype Loads = Loads(bogoOps: seq<real>, realTimes: seq<real>, usrTimes: seq<real>, sysTimes: seq<real>)

  predicate AreLoads(rows: seq<Stress>, l: Loads) {
    && |l.bogoOps| == |l.realTimes| == |l.usrTimes| == |l.sysTimes| == |rows|
    && forall i | 0 <= i < |rows| ::
         rows[i].bogoOps == l.bogoOps[i] && rows[i].realTime == l.realTimes[i]
         && rows[i].usrTime == l.usrTimes[i] && rows[i].sysTime == l.sysTimes[i]
  }

  predicate StressSumsUp(metrics: Row, units: Row, l: Loads) {
    && IsMetricOf(metrics, units, "stressors", JInt(|l.bogoOps|), "count")
    && IsMetricOf(metrics, units, "bogo_ops", JFloat(Sum(l.bogoOps)), "count")
    && IsMetricOf(metrics, units, "real_time_seconds", JFloat(Sum(l.realTimes)), "seconds")
    && IsMetricOf(metrics, units, "usr_time_seconds", JFloat(Sum(l.usrTimes)), "seconds")
    && IsMetricOf(metrics, units, "sys_time_seconds", JFloat(Sum(l.sysTimes)), "seconds")
  }

  lemma StressHolds(p: Parsed, rows: seq<Stress>, l: Loads)
    requires rows != [] && AreLoads(rows, l) && StressOf(rows) == Some(p)
    ensures HoldsMetric(p, Stressors, JInt(|rows|), Count) && HoldsMetric(p, BogoOps, JFloat(Sum(l.bogoOps)), Count)
    ensures HoldsMetric(p, RealTime, JFloat(Sum(l.realTimes)), Seconds) && HoldsMetric(p, UsrTime, JFloat(Sum(l.usrTimes)), Seconds)
    ensures HoldsMetric(p, SysTime, JFloat(Sum(l.sysTimes)), Seconds)
    ensures p.metrics.Keys == {Stressors, BogoOps, RealTime, UsrTime, SysTime} && p.samples == |rows| && p.runs == 1
  {
    TotalIsSum(rows, BogoOpsOf, l.bogoOps);
    TotalIsSum(rows, RealTimeOf, l.realTimes);
    TotalIsSum(rows, UsrTimeOf, l.usrTimes);
    TotalIsSum(rows, SysTimeOf, l.sysTimes);
  }

  lemma StressorsField(p: Parsed, v: Json)
    requires HoldsMetric(p, Stressors, v, Count)
    ensures IsMetricOf(ToRow(p.metrics), ToRow(UnitTable(p.units)), "stressors", v, "count")
  {
    MetricIs(p, Stressors, "stressors");
  }

  lemma BogoOpsField(p: Parsed, v: Json)
    requires HoldsMetric(p, BogoOps, v, Count)
    ensures IsMetricOf(ToRow(p.metrics), ToRow(UnitTable(p.units)), "bogo_ops", v, "count")
  {
    MetricIs(p, BogoOps, "bogo_ops");
  }

  lemma RealTimeField(p: Parsed, v: Json)
    requires HoldsMetric(p, RealTime, v, Seconds)
    ensures IsMetricOf(ToRow(p.metrics), ToRow(UnitTable(p.units)), "real_time_seconds", v, "seconds")
  {
    MetricIs(p, RealTime, "real_time_seconds");
  }

  lemma UsrTimeField(p: Parsed, v: Json)
    requires HoldsMetric(p, UsrTime, v, Seconds)
    ensures IsMetricOf(ToRow(p.metrics), ToRow(UnitTable(p.units)), "usr_time_seconds", v, "seconds")
  {
    MetricIs(p, UsrTime, "usr_time_seconds");
  }

  lemma SysTimeField(p: Parsed, v: Json)
    requires HoldsMetric(p, SysTime, v, Seconds)
    ensures IsMetricOf(ToRow(p.metrics), ToRow(UnitTable(p.units)), "sys_time_seconds", v, "seconds")
  {
    MetricIs(p, SysTime, "sys_time_seconds");
  }

  lemma StressRowsSumUp(rows: seq<Stress>, l: Loads)
    requires rows != [] && AreLoads(rows, l)
    ensures
      var p := StressOf(rows).value;
      && StressSumsUp(ToRow(p.metrics), ToRow(UnitTable(p.units)), l)
      && p.metrics.Keys == {Stressors, BogoOps, RealTime, UsrTime, SysTime} && p.samples == |rows| && p.runs == 1
  {
    var p := StressOf(rows).value;
    StressHolds(p, rows, l);
    StressorsField(p, JInt(|rows|));
    BogoOpsField(p, JFloat(Sum(l.bogoOps)));
    RealTimeField(p, JFloat(Sum(l.realTimes)));
    UsrTimeField(p, JFloat(Sum(l.usrTimes)));
    SysTimeField(p, JFloat(Sum(l.sysTimes)));
  }

  /** A count that is shown is recorded, one that is not is left out. */
  predicate IsShown(metrics: Row, units: Row, key: string, count: Option<nat>) {
    match count
    case Some(n) => IsMetricOf(metrics, units, key, JFloat(n as real), "count")
    case None => key !in metrics && key !in units
  }

  lemma AbsentIs(p: Parsed, n: Name, key: string)
    requires n !in p.metrics && n !in p.units && key == KeyOf(n)
    ensures key !in ToRow(p.metrics) && key !in ToRow(UnitTable(p.units))
  {
    RowHasTable(p.metrics);
    RowHasTable(UnitTable(p.units));
  }

  lemma ShownIs(p: Parsed, n: Name, key: string, count: Option<nat>)
    requires key == KeyOf(n)
    requires MayHold(p, n, count)
    ensures IsShown(ToRow(p.metrics), ToRow(UnitTable(p.units)), key, count)
  {
    if count.Some? { MetricIs(p, n, key); } else { AbsentIs(p, n, key); }
  }

  lemma TotalTimeField(p: Parsed, v: Json)
    requires HoldsMetric(p, TotalTime, v, Seconds)
    ensures IsMetricOf(ToRow(p.metrics), ToRow(UnitTable(p.units)), "total_time_seconds", v, "seconds")
  {
    MetricIs(p, TotalTime, "total_time_seconds");
  }

  predicate MayHold(p: Parsed, n: Name, count: Option<nat>) {
    if count.Some? then HoldsMetric(p, n, JFloat(count.value as real), Count) else n !in p.metrics && n !in p.units
  }

  lemma PerfHolds(p: Parsed, seconds: Amount, groups: Option<nat>, processes: Option<nat>)
    requires ParsePerfMessaging(Some(seconds), groups, processes) == Some(p)
    ensures HoldsMetric(p, TotalTime, JFloat(seconds), Seconds) && MayHold(p, Groups, groups) && MayHold(p, Processes, processes)
    ensures p.metrics.Keys <= {TotalTime, Groups, Processes} && p.samples == p.runs == 1
  {}

  lemma GroupsField(p: Parsed, count: Option<nat>)
    requires MayHold(p, Groups, count)
    ensures IsShown(ToRow(p.metrics), ToRow(UnitTable(p.units)), "groups", count)
  {
    ShownIs(p, Groups, "groups", count);
  }

  lemma ProcessesField(p: Parsed, count: Option<nat>)
    requires MayHold(p, Processes, count)
    ensures IsShown(ToRow(p.metrics), ToRow(UnitTable(p.units)), "processes", count)
  {
    ShownIs(p, Processes, "processes", count);
  }

  lemma PerfSays(seconds: Amount, groups: Option<nat>, processes: Option<nat>)
    ensures
      var p := ParsePerfMessaging(Some(seconds), groups, processes).value;
      var metrics, units := ToRow(p.metrics), ToRow(UnitTable(p.units));
      && IsMetricOf(metrics, units, "total_time_seconds", JFloat(seconds), "seconds")
      && IsShown(metrics, units, "groups", groups) && IsShown(metrics, units, "processes", processes)
      && p.metrics.Keys <= {TotalTime, Groups, Processes} && p.samples == p.runs == 1
  {
    var p := ParsePerfMessaging(Some(seconds), groups, processes).value;
    PerfHolds(p, seconds, groups, processes);
    TotalTimeField(p, JFloat(seconds));
    GroupsField(p, groups);
    ProcessesField(p, processes);
  }

  // ----- no other metrics -----

  const FIO_KEYS: set<string> := {
    "jobs", "read_iops", "read_bw_bytes", "read_lat_ns_mean_avg", "write_iops", "write_bw_bytes", "write_lat_ns_mean_avg"}
  const CYCLIC_KEYS: set<string> := {"threads", "cycles", "latency_min_us_avg", "latency_avg_us_avg", "latency_max_us"}
  const STRESS_KEYS: set<string> := {
    "stressors", "bogo_ops", "real_time_seconds", "usr_time_seconds", "sys_time_seconds"}
  const PERF_KEYS: set<string> := {"total_time_seconds", "groups", "processes"}

  lemma FioKey(n: Name)
    requires n in {Jobs, ReadIops, ReadBw, ReadLat, WriteIops, WriteBw, WriteLat}
    ensures KeyOf(n) in FIO_KEYS
  {}

  lemma CyclicKey(n: Name)
    requires n in {Threads, Cycles, LatencyMin, LatencyAvg, LatencyMax}
    ensures KeyOf(n) in CYCLIC_KEYS
  {}

  lemma StressKey(n: Name)
    requires n in {Stressors, BogoOps, RealTime, UsrTime, SysTime}
    ensures KeyOf(n) in STRESS_KEYS
  {}

  lemma PerfKey(n: Name)
    requires n in {TotalTime, Groups, Processes}
    ensures KeyOf(n) in PERF_KEYS
  {}

  /** The keys of an object are those of its names. */
  lemma RowKeysWithin(t: Table, keys: set<string>)
    requires forall n | n in t :: KeyOf(n) in keys
    ensures ToRow(t).Keys <= keys
  {
    forall key | key in ToRow(t) ensures key in keys {
      RowSaysOnly(t, key);
    }
  }

  lemma FioKeysOnly(t: Table)
    requires t.Keys <= {Jobs, ReadIops, ReadBw, ReadLat, WriteIops, WriteBw, WriteLat}
    ensures ToRow(t).Keys <= FIO_KEYS
  {
    forall n | n in t ensures KeyOf(n) in FIO_KEYS { FioKey(n); }
    RowKeysWithin(t, FIO_KEYS);
  }

  lemma CyclicKeysOnly(t: Table)
    requires t.Keys <= {Threads, Cycles, LatencyMin, LatencyAvg, LatencyMax}
    ensures ToRow(t).Keys <= CYCLIC_KEYS
  {
    forall n | n in t ensures KeyOf(n) in CYCLIC_KEYS { CyclicKey(n); }
    RowKeysWithin(t, CYCLIC_KEYS);
  }

  lemma StressKeysOnly(t: Table)
    requires t.Keys <= {Stressors, BogoOps, RealTime, UsrTime, SysTime}
    ensures ToRow(t).Keys <= STRESS_KEYS
  {
    forall n | n in t ensures KeyOf(n) in STRESS_KEYS { StressKey(n); }
    RowKeysWithin(t, STRESS_KEYS);
  }

  lemma PerfKeysOnly(t: Table)
    requires t.Keys <= {TotalTime, Groups, Processes}
    ensures ToRow(t).Keys <= PERF_KEYS
  {
    forall n | n in t ensures KeyOf(n) in PERF_KEYS { PerfKey(n); }
    RowKeysWithin(t, PERF_KEYS);
  }
}
