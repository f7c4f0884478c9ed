/** Parsing raw benchmark output into records (qa/benchmark_output_parse.py) and
    validating records (qa/benchmark_output_validate.py), over exact reals. */
module BenchmarkRecord {
  import opened Wrappers
  import opened JsonValue

  // ----- keys and constants -----

  datatype Name =
    // the record
    | Schema | Status | Tool | CommandFamily | RecordOnly | OutputPath | OutputSha256 | VmEvidence | ParserProvenance
    | Metrics | Units | SampleCount | RunCount | HostMutation | ReleaseEligible | ProductionCapacityClaim
    | HardThresholdsEnforced | ThresholdStatus | PrivacySanitized
    // its parser provenance
    | Parser | ParserVersion | ParserStatus
    // its metrics and units
    | Threads | Cycles | LatencyMin | LatencyAvg | LatencyMax
    | Jobs | ReadIops | ReadBw | ReadLat | WriteIops | WriteBw | WriteLat
    | TotalTime | Groups | Processes
    | Stressors | BogoOps | RealTime | UsrTime | SysTime

  function KeyOf(n: Name): string {
    match n
    case Schema => "schema"
    case Status => "status"
    case Tool => "tool"
    case CommandFamily => "command_family"
    case RecordOnly => "record_only"
    case OutputPath => "output_path"
    case OutputSha256 => "output_sha256"
    case VmEvidence => "vm_evidence"
    case ParserProvenance => "parser_provenance"
    case Metrics => "metrics"
    case Units => "units"
    case SampleCount => "sample_count"
    case RunCount => "run_count"
    case HostMutation => "host_mutation"
    case ReleaseEligible => "release_eligible"
    case ProductionCapacityClaim => "production_capacity_claim"
    case HardThresholdsEnforced => "hard_thresholds_enforced"
    case ThresholdStatus => "threshold_status"
    case PrivacySanitized => "privacy_sanitized"
    case Parser => "parser"
    case ParserVersion => "parser_version"
    case ParserStatus => "parser_status"
    case Threads => "threads"
    case Cycles => "cycles"
    case LatencyMin => "latency_min_us_avg"
    case LatencyAvg => "latency_avg_us_avg"
    case LatencyMax => "latency_max_us"
    case Jobs => "jobs"
    case ReadIops => "read_iops"
    case ReadBw => "read_bw_bytes"
    case ReadLat => "read_lat_ns_mean_avg"
    case WriteIops => "write_iops"
    case WriteBw => "write_bw_bytes"
    case WriteLat => "write_lat_ns_mean_avg"
    case TotalTime => "total_time_seconds"
    case Groups => "groups"
    case Processes => "processes"
    case Stressors => "stressors"
    case BogoOps => "bogo_ops"
    case RealTime => "real_time_seconds"
    case UsrTime => "usr_time_seconds"
    case SysTime => "sys_time_seconds"
  }

  function Length(n: Name): int {
    match n
    case Tool | Jobs => 4
    case Units => 5
    case Schema | Status | Parser | Cycles | Groups => 6
    case Metrics | Threads => 7
    case BogoOps => 8
    case RunCount | ReadIops | Processes | Stressors => 9
    case WriteIops => 10
    case RecordOnly | OutputPath | VmEvidence => 11
    case SampleCount => 12
    case OutputSha256 | HostMutation | ParserStatus | ReadBw => 13
    case CommandFamily | ParserVersion | LatencyMax | WriteBw => 14
    case ReleaseEligible | ThresholdStatus | UsrTime | SysTime => 16
    case ParserProvenance | PrivacySanitized | RealTime => 17
    case LatencyMin | LatencyAvg | TotalTime => 18
    case ReadLat => 20
    case WriteLat => 21
    case HardThresholdsEnforced => 24
    case ProductionCapacityClaim => 25
  }

  lemma LengthOfKey(n: Name)
    ensures |KeyOf(n)| == Length(n)
  {}

  lemma ShortKeysAreDistinct(n: Name, m: Name)
    requires Length(n) == Length(m) < 13 && |KeyOf(n)| == |KeyOf(m)| == Length(n) && KeyOf(n)[2] == KeyOf(m)[2]
    ensures n == m
  {}

  lemma MiddleKeysAreDistinct(n: Name, m: Name)
    requires 13 <= Length(n) == Length(m) < 15 && |KeyOf(n)| == |KeyOf(m)| == Length(n)
    requires KeyOf(n)[0] == KeyOf(m)[0] && KeyOf(n)[8] == KeyOf(m)[8]
    ensures n == m
  {}

  lemma LongKeysAreDistinct(n: Name, m: Name)
    requires Length(n) == Length(m) >= 15 && |KeyOf(n)| == |KeyOf(m)| == Length(n)
    requires KeyOf(n)[0] == KeyOf(m)[0] && KeyOf(n)[8] == KeyOf(m)[8]
    ensures n == m
  {}

  lemma KeysAreDistinct(n: Name, m: Name)
    requires KeyOf(n) == KeyOf(m)
    ensures n == m
  {
    LengthOfKey(n);
    LengthOfKey(m);
    if Length(n) < 13 {
      ShortKeysAreDistinct(n, m);
    } else if Length(n) < 15 {
      MiddleKeysAreDistinct(n, m);
    } else {
      LongKeysAreDistinct(n, m);
    }
  }

  /** An object under construction, by name. */
  type Table = map<Name, Json>

  lemma AllKeysAreDistinct()
    ensures forall n: Name, m: Name :: KeyOf(n) == KeyOf(m) ==> n == m
  {
    forall n: Name, m: Name | KeyOf(n) == KeyOf(m) ensures n == m { KeysAreDistinct(n, m); }
  }

  function ToRow(t: Table): Row {
    AllKeysAreDistinct();
    map n | n in t :: KeyOf(n) := t[n]
  }

  lemma RowHasTable(t: Table)
    ensures forall n: Name :: KeyOf(n) in ToRow(t) <==> n in t
    ensures forall n | n in t :: ToRow(t)[KeyOf(n)] == t[n]
    ensures forall k | k in ToRow(t) :: exists n :: n in t && k == KeyOf(n)
  {
    AllKeysAreDistinct();
  }

    const PARSER_NAME := "qa/benchmark_output_parse.py"
  const PARSER_VERSION := "benchmark-output/v1"
  const SCHEMA := "zig-scheduler/" + PARSER_VERSION
  const RECORDED := "RECORDED"
  const DEFERRED := "UNSUPPORTED_DEFERRED"
  const PARSED := "PARSED"
  const RECORD_ONLY := "record_only"
  const REQUIRED_NAMES: set<Name> := {
    Schema, Status, Tool, CommandFamily, RecordOnly, OutputPath, OutputSha256, VmEvidence, ParserProvenance, Metrics,
    Units, SampleCount, RunCount, HostMutation, ReleaseEligible, ProductionCapacityClaim, HardThresholdsEnforced,
    ThresholdStatus, PrivacySanitized}

  datatype Family = Cyclictest | Fio | PerfBenchSchedMessaging | Rtla | PerfSched | StressNg

  function FamilyText(f: Family): string {
    match f
    case Cyclictest => "cyclictest"
    case Fio => "fio"
    case PerfBenchSchedMessaging => "perf_bench_sched_messaging"
    case Rtla => "rtla"
    case PerfSched => "perf_sched"
    case StressNg => "stress_ng"
  }

  function ToolFor(f: Family): string {
    match f
    case Cyclictest => "cyclictest"
    case Fio => "fio"
    case PerfBenchSchedMessaging => "perf"
    case PerfSched => "perf"
    case Rtla => "rtla"
    case StressNg => "stress-ng"
  }

  predicate IsSupported(f: Family) { !f.Rtla? && !f.PerfSched? }

  // ----- the parsers -----

  datatype Unit = Count | Us | IopsUnit | BytesPerSecond | Ns | Seconds

  function UnitText(u: Unit): string {
    match u
    case Count => "count"
    case Us => "us"
    case IopsUnit => "iops"
    case BytesPerSecond => "bytes_per_second"
    case Ns => "ns"
    case Seconds => "seconds"
  }

  function UnitTable(units: map<Name, Unit>): Table {
    map n | n in units :: JStr(UnitText(units[n]))
  }

  /** What a parser returns: metrics, units, sample count and run count. */
  datatype Parsed = Parsed(metrics: Table, units: map<Name, Unit>, samples: int, runs: int)

  /** `num`: a nonnegative finite number that is not a bool. */
  function Num(v: Option<Json>): Option<real> {
    match v
    case Some(JInt(n)) => if n >= 0 then Some(n as real) else None
    case Some(JFloat(r)) => if r >= 0.0 then Some(r) else None
    case _ => None
  }

  type Amount = r: real | 0.0 <= r

  /** One thread's latencies, as either cyclictest format gives them. */
  datatype Latency = Latency(cycles: Amount, min: Amount, avg: Amount, max: Amount)

  function Total<T>(rows: seq<T>, f: T -> Amount): Amount {
    if rows == [] then 0.0 else Total(rows[..|rows| - 1], f) + f(rows[|rows| - 1])
  }

  function Largest<T>(rows: seq<T>, f: T -> Amount): Amount
    requires rows != []
  {
    var last := f(rows[|rows| - 1]);
    if |rows| == 1 then last
    else
      var front := Largest(rows[..|rows| - 1], f);
      if front < last then last else front
  }

  function CyclesOf(r: Latency): Amount { r.cycles }
  function MinOf(r: Latency): Amount { r.min }
  function AvgOf(r: Latency): Amount { r.avg }
  function MaxOf(r: Latency): Amount { r.max }

  const LATENCY_UNITS: map<Name, Unit> := map[
    Threads := Count, Cycles := Count, LatencyMin := Us, LatencyAvg := Us,
    LatencyMax := Us]

  function LatencyParsed(threads: nat, cycles: Amount, mins: Amount, avgs: Amount, largest: Amount): Parsed
    requires threads > 0
  {
    var n := threads as real;
    Parsed(map[
      Threads := JInt(threads), Cycles := JFloat(cycles), LatencyMin := JFloat(mins / n), LatencyAvg := JFloat(avgs / n),
      LatencyMax := JFloat(largest)], LATENCY_UNITS, cycles.Floor, threads)
  }

  /** `parse_cyclictest_text` on the rows its pattern finds. */
  function ParseCyclictestText(rows: seq<Latency>): Option<Parsed> {
    if rows == [] then None
    else Some(LatencyParsed(|rows|, Total(rows, CyclesOf), Total(rows, MinOf), Total(rows, AvgOf), Largest(rows, MaxOf)))
  }

  /** The latencies in one entry of the JSON's thread object. */
  function LatencyOf(row: Json): Option<Latency> {
    if !row.JObject? then None
    else
      match (Num(Get(row.fields, "cycles")), Num(Get(row.fields, "min")), Num(Get(row.fields, "avg")), Num(Get(row.fields, "max")))
      case (Some(cycles), Some(min), Some(avg), Some(max)) => Some(Latency(cycles, min, avg, max))
      case _ => None
  }

  /** All of them, if all are well formed. */
  function Latencies(entries: seq<Json>): Option<seq<Latency>> {
    if entries == [] then Some([]) else
      match (Latencies(entries[..|entries| - 1]), LatencyOf(entries[|entries| - 1]))
      case (Some(front), Some(last)) => Some(front + [last])
      case _ => None
  }

  lemma {:induction false} LatenciesOfPrefix(entries: seq<Json>, i: nat)
    requires i <= |entries| && Latencies(entries[..i]).None?
    ensures Latencies(entries).None?
    decreases |entries|
  {
    if i < |entries| {
      var front := entries[..|entries| - 1];
      assert front[..i] == entries[..i];
      LatenciesOfPrefix(front, i);
    } else {
      assert entries[..i] == entries;
    }
  }

  /** The JSON parser: one pass with accumulators over the entries of the thread object,
      in order (`None` when there is no such object).  On the same latencies it yields
      what the text parser does. */
  method ParseCyclictestJson(threads: Option<seq<Json>>) returns (r: Option<Parsed>)
    ensures r ==
      if threads.None? then None
      else match Latencies(threads.value) case None => None case Some(rows) => ParseCyclictestText(rows)
  {
    if threads.None? || threads.value == [] { return None; }
    var entries := threads.value;
    var cycles: Amount, mins: Amount, avgs: Amount, maxes: Amount := 0.0, 0.0, 0.0, 0.0;
    ghost var rows: seq<Latency> := [];
    for i := 0 to |entries|
      invariant Latencies(entries[..i]) == Some(rows) && |rows| == i
      invariant cycles == Total(rows, CyclesOf) && mins == Total(rows, MinOf) && avgs == Total(rows, AvgOf)
      invariant maxes == if rows == [] then 0.0 else Largest(rows, MaxOf)
    {
      assert entries[..i + 1][..i] == entries[..i];
      var latency := LatencyOf(entries[i]);
      if latency.None? {
        LatenciesOfPrefix(entries, i + 1);
        return None;
      }
      cycles := cycles + latency.value.cycles;
      mins := mins + latency.value.min;
      avgs := avgs + latency.value.avg;
      maxes := if maxes < latency.value.max then latency.value.max else maxes;
      ghost var more := rows + [latency.value];
      assert more[..|more| - 1] == rows;
      rows := more;
    }
    assert entries[..|entries|] == entries;
    return Some(LatencyParsed(|entries|, cycles, mins, avgs, maxes));
  }

  /** One direction of one fio job: iops, bandwidth and mean latency (0 when not given). */
  datatype Section = Section(iops: Amount, bw: Amount, lat: Amount)

  function IopsOf(s: Section): Amount { s.iops }
  function BwOf(s: Section): Amount { s.bw }
  function LatOf(s: Section): Amount { s.lat }

  function SectionOf(job: Json, op: string): Option<Section> {
    if !job.JObject? then None else
      match Get(job.fields, op)
      case Some(JObject(section)) =>
        var lat := match Get(section, "lat_ns") case Some(JObject(l)) => Num(Get(l, "mean")) case _ => Some(0.0);
        (match (Num(Get(section, "iops")), Num(Get(section, "bw_bytes")), lat)
         case (Some(iops), Some(bw), Some(mean)) => Some(Section(iops, bw, mean))
         case _ => None)
      case _ => None
  }

  function Sections(jobs: seq<Json>, op: string): Option<seq<Section>> {
    if jobs == [] then Some([]) else
      match (Sections(jobs[..|jobs| - 1], op), SectionOf(jobs[|jobs| - 1], op))
      case (Some(front), Some(last)) => Some(front + [last])
      case _ => None
  }

  lemma {:induction false} SectionsOfPrefix(jobs: seq<Json>, op: string, i: nat)
    requires i <= |jobs| && Sections(jobs[..i], op).None?
    ensures Sections(jobs, op).None?
    decreases |jobs|
  {
    if i < |jobs| {
      var front := jobs[..|jobs| - 1];
      assert front[..i] == jobs[..i];
      SectionsOfPrefix(front, op, i);
    } else {
      assert jobs[..i] == jobs;
    }
  }

  const FIO_UNITS: map<Name, Unit> := map[
    Jobs := Count, ReadIops := IopsUnit, ReadBw := BytesPerSecond, ReadLat := Ns,
    WriteIops := IopsUnit, WriteBw := BytesPerSecond, WriteLat := Ns]

  function FioParsed(jobs: nat, read: Section, write: Section): Parsed
    requires jobs > 0
  {
    var n := jobs as real;
    Parsed(map[
      Jobs := JInt(jobs), ReadIops := JFloat(read.iops), ReadBw := JFloat(read.bw), ReadLat := JFloat(read.lat / n),
      WriteIops := JFloat(write.iops), WriteBw := JFloat(write.bw), WriteLat := JFloat(write.lat / n)],
      FIO_UNITS, jobs, jobs)
  }

  function TotalSection(sections: seq<Section>): Section {
    Section(Total(sections, IopsOf), Total(sections, BwOf), Total(sections, LatOf))
  }

  /** The accumulator loop over the jobs for one direction. */
  method SumSections(jobs: seq<Json>, op: string) returns (r: Option<Section>)
    ensures r == match Sections(jobs, op) case None => None case Some(sections) => Some(TotalSection(sections))
  {
    var iops: Amount, bw: Amount, lat: Amount := 0.0, 0.0, 0.0;
    ghost var sections: seq<Section> := [];
    for i := 0 to |jobs|
      invariant Sections(jobs[..i], op) == Some(sections) && |sections| == i
      invariant Section(iops, bw, lat) == TotalSection(sections)
    {
      assert jobs[..i + 1][..i] == jobs[..i];
      var section := SectionOf(jobs[i], op);
      if section.None? {
        SectionsOfPrefix(jobs, op, i + 1);
        return None;
      }
      iops := iops + section.value.iops;
      bw := bw + section.value.bw;
      lat := lat + section.value.lat;
      ghost var more := sections + [section.value];
      assert more[..|more| - 1] == sections;
      sections := more;
    }
    assert jobs[..|jobs|] == jobs;
    return Some(Section(iops, bw, lat));
  }

  function FioOf(jobs: Option<seq<Json>>): Option<Parsed> {
    if jobs.None? || jobs.value == [] then None else
      match (Sections(jobs.value, "read"), Sections(jobs.value, "write"))
      case (Some(read), Some(write)) => Some(FioParsed(|jobs.value|, TotalSection(read), TotalSection(write)))
      case _ => None
  }

  method ParseFio(jobs: Option<seq<Json>>) returns (r: Option<Parsed>)
    ensures r == FioOf(jobs)
  {
    if jobs.None? || jobs.value == [] { return None; }
    var read := SumSections(jobs.value, "read");
    if read.None? { return None; }
    var write := SumSections(jobs.value, "write");
    if write.None? { return None; }
    return Some(FioParsed(|jobs.value|, read.value, write.value));
  }

  /** `perf bench sched messaging`: the total time, and group and process counts if shown. */
  function ParsePerfMessaging(seconds: Option<Amount>, groups: Option<nat>, processes: Option<nat>): Option<Parsed> {
    if seconds.None? then None
    else
      var metrics: Table := map[TotalTime := JFloat(seconds.value)];
      var units: map<Name, Unit> := map[TotalTime := Seconds];
      var metrics1 := if groups.Some? then metrics[Groups := JFloat(groups.value as real)] else metrics;
      var units1 := if groups.Some? then units[Groups := Count] else units;
      var metrics2 := if processes.Some? then metrics1[Processes := JFloat(processes.value as real)] else metrics1;
      var units2 := if processes.Some? then units1[Processes := Count] else units1;
      Some(Parsed(metrics2, units2, 1, 1))
  }

  datatype Stress = Stress(bogoOps: Amount, realTime: Amount, usrTime: Amount, sysTime: Amount)

  function BogoOpsOf(s: Stress): Amount { s.bogoOps }
  function RealTimeOf(s: Stress): Amount { s.realTime }
  function UsrTimeOf(s: Stress): Amount { s.usrTime }
  function SysTimeOf(s: Stress): Amount { s.sysTime }

  const STRESS_UNITS: map<Name, Unit> := map[
    Stressors := Count, BogoOps := Count, RealTime := Seconds, UsrTime := Seconds,
    SysTime := Seconds]

  function StressOf(rows: seq<Stress>): Option<Parsed> {
    if rows == [] then None
    else Some(Parsed(map[
      Stressors := JInt(|rows|), BogoOps := JFloat(Total(rows, BogoOpsOf)), RealTime := JFloat(Total(rows, RealTimeOf)),
      UsrTime := JFloat(Total(rows, UsrTimeOf)), SysTime := JFloat(Total(rows, SysTimeOf))], STRESS_UNITS, |rows|, 1))
  }

  method ParseStressNg(rows: seq<Stress>) returns (r: Option<Parsed>)
    ensures r == StressOf(rows)
  {
    if rows == [] { return None; }
    var bogoOps: Amount, realTime: Amount, usrTime: Amount, sysTime: Amount := 0.0, 0.0, 0.0, 0.0;
    for i := 0 to |rows|
      invariant bogoOps == Total(rows[..i], BogoOpsOf) && realTime == Total(rows[..i], RealTimeOf)
      invariant usrTime == Total(rows[..i], UsrTimeOf) && sysTime == Total(rows[..i], SysTimeOf)
    {
      assert rows[..i + 1][..i] == rows[..i];
      bogoOps := bogoOps + rows[i].bogoOps;
      realTime := realTime + rows[i].realTime;
      usrTime := usrTime + rows[i].usrTime;
      sysTime := sysTime + rows[i].sysTime;
    }
    assert rows[..|rows|] == rows;
    return Some(Parsed(map[
      Stressors := JInt(|rows|), BogoOps := JFloat(bogoOps), RealTime := JFloat(realTime),
      UsrTime := JFloat(usrTime), SysTime := JFloat(sysTime)], STRESS_UNITS, |rows|, 1));
  }

  // ----- aggregates -----

  lemma {:induction false} TotalIsMonotone<T>(rows: seq<T>, f: T -> Amount, g: T -> Amount)
    requires forall i | 0 <= i < |rows| :: f(rows[i]) <= g(rows[i])
    ensures Total(rows, f) <= Total(rows, g)
    decreases |rows|
  {
    if rows != [] {
      TotalIsMonotone(rows[..|rows| - 1], f, g);
    }
  }

  lemma {:induction false} TotalIsBounded<T>(rows: seq<T>, f: T -> Amount, bound: real)
    requires forall i | 0 <= i < |rows| :: f(rows[i]) <= bound
    ensures Total(rows, f) <= bound * (|rows| as real)
    decreases |rows|
  {
    if rows != [] {
      TotalIsBounded(rows[..|rows| - 1], f, bound);
    }
  }

  lemma {:induction false} LargestIsLargest<T>(rows: seq<T>, f: T -> Amount)
    requires rows != []
    ensures forall i | 0 <= i < |rows| :: f(rows[i]) <= Largest(rows, f)
    ensures exists i :: 0 <= i < |rows| && f(rows[i]) == Largest(rows, f)
    decreases |rows|
  {
    var front, n := rows[..|rows| - 1], |rows| - 1;
    if front != [] {
      LargestIsLargest(front, f);
      var i :| 0 <= i < |front| && f(front[i]) == Largest(front, f);
      assert f(rows[i]) == Largest(front, f);
    }
    assert f(rows[n]) == f(rows[|rows| - 1]);
  }

  /** If every thread has min <= avg <= max, then so have the aggregates, for any number
      of threads. */
  lemma AggregatesAreOrdered(rows: seq<Latency>)
    requires rows != [] && forall i | 0 <= i < |rows| :: rows[i].min <= rows[i].avg <= rows[i].max
    ensures
      var metrics := ParseCyclictestText(rows).value.metrics;
      metrics[LatencyMin].r <= metrics[LatencyAvg].r <= metrics[LatencyMax].r
  {
    TotalsAreOrdered(rows);
    MeansAreOrdered(Total(rows, MinOf), Total(rows, AvgOf), Largest(rows, MaxOf), |rows| as real);
  }

  lemma TotalsAreOrdered(rows: seq<Latency>)
    requires rows != [] && forall i | 0 <= i < |rows| :: rows[i].min <= rows[i].avg <= rows[i].max
    ensures Total(rows, MinOf) <= Total(rows, AvgOf) <= Largest(rows, MaxOf) * (|rows| as real)
  {
    TotalIsMonotone(rows, MinOf, AvgOf);
    LargestIsLargest(rows, MaxOf);
    forall i | 0 <= i < |rows| ensures AvgOf(rows[i]) <= Largest(rows, MaxOf) {
      assert MaxOf(rows[i]) <= Largest(rows, MaxOf);
    }
    TotalIsBounded(rows, AvgOf, Largest(rows, MaxOf));
  }

  lemma MeansAreOrdered(mins: real, avgs: real, top: real, n: real)
    requires mins <= avgs <= top * n && n > 0.0
    ensures mins / n <= avgs / n <= top
  {
    DivideOrdered(mins, avgs, n);
    DivideOrdered(avgs, top * n, n);
    assert top * n / n == top;
  }

  lemma DivideOrdered(a: real, b: real, n: real)
    requires a <= b && n > 0.0
    ensures a / n <= b / n
  {}
}
