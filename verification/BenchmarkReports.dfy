/** From an input to its record: which records are built, and what each says of its input, told
    without the parsers and the producer's table. */
module BenchmarkReports {
  import opened Wrappers
  import opened JsonValue
  import opened BenchmarkRecord
  import opened BenchmarkAgreement
  import opened BenchmarkMetrics
  import opened BenchmarkRules

  /** The metrics, units and counts, as objects. */
  datatype Report = Report(metrics: Row, units: Row, samples: int, runs: int)

  ghost predicate IsFioReport(r: Report, jobs: seq<Json>, read: Readings, write: Readings) {
    && jobs != [] && AllSay(jobs, "read", read) && AllSay(jobs, "write", write)
    && SumsUp(r.metrics, r.units, READ_KEYS, read) && SumsUp(r.metrics, r.units, WRITE_KEYS, write)
    && IsMetricOf(r.metrics, r.units, "jobs", JInt(|jobs|), "count")
    && r.metrics.Keys <= FIO_KEYS && r.samples == r.runs == |jobs|
  }

  ghost predicate IsCyclicReport(r: Report, threads: nat, t: Timings) {
    && threads > 0 && |t.cycles| == threads && CyclicSumsUp(r.metrics, r.units, t)
    && r.metrics.Keys <= CYCLIC_KEYS && r.samples == Sum(t.cycles).Floor && r.runs == threads
  }

  ghost predicate IsPerfReport(r: Report, seconds: real, groups: Option<nat>, processes: Option<nat>) {
    && IsMetricOf(r.metrics, r.units, "total_time_seconds", JFloat(seconds), "seconds")
    && IsShown(r.metrics, r.units, "groups", groups) && IsShown(r.metrics, r.units, "processes", processes)
    && r.metrics.Keys <= PERF_KEYS && r.samples == r.runs == 1
  }

  ghost predicate IsStressReport(r: Report, rows: nat, l: Loads) {
    && rows > 0 && |l.bogoOps| == rows && StressSumsUp(r.metrics, r.units, l)
    && r.metrics.Keys <= STRESS_KEYS && r.samples == rows && r.runs == 1
  }

  /** What each input yields. */
  ghost predicate Yields(raw: Raw, r: Report) {
    match raw
    case FioJson(jobs) => jobs.Some? && exists read, write :: IsFioReport(r, jobs.value, read, write)
    case CyclicText(rows) => exists t :: AreTimings(rows, t) && IsCyclicReport(r, |rows|, t)
    case CyclicJson(entries) => entries.Some? && exists t :: EntriesSay(entries.value, t) && IsCyclicReport(r, |entries.value|, t)
    case PerfText(seconds, groups, processes) => seconds.Some? && IsPerfReport(r, seconds.value, groups, processes)
    case StressText(rows) => exists l :: AreLoads(rows, l) && IsStressReport(r, |rows|, l)
    case Unread(_) => r == Report(map[], map[], 0, 0)
  }

  function ReportOf(p: Parsed): Report { Report(ToRow(p.metrics), ToRow(UnitTable(p.units)), p.samples, p.runs) }

  /** `p` is what is parsed: there is a report iff there is a `p`, and then it is the report of `p`. */
  ghost predicate IsParsed(raw: Raw, p: Option<Parsed>) {
    if p.None? then forall r :: !Yields(raw, r) else Yields(raw, ReportOf(p.value))
  }

  // ----- the parsers yield reports -----

  lemma FioYields(jobs: Option<seq<Json>>)
    ensures IsParsed(FioJson(jobs), FioOf(jobs))
  {
    if jobs.Some? {
      FioIsParsedIff(jobs.value);
      if FioOf(jobs).Some? {
        var read, write :| AllSay(jobs.value, "read", read) && AllSay(jobs.value, "write", write);
        FioSumsUp(jobs.value, read, write);
        FioKeysOnly(FioOf(jobs).value.metrics);
        assert IsFioReport(ReportOf(FioOf(jobs).value), jobs.value, read, write);
      }
    }
  }

  function TimingsOf(rows: seq<Latency>): Timings {
    Timings(
      seq(|rows|, i requires 0 <= i < |rows| => rows[i].cycles), seq(|rows|, i requires 0 <= i < |rows| => rows[i].min),
      seq(|rows|, i requires 0 <= i < |rows| => rows[i].avg), seq(|rows|, i requires 0 <= i < |rows| => rows[i].max))
  }

  lemma RowsYield(rows: seq<Latency>) returns (t: Timings)
    requires rows != []
    ensures AreTimings(rows, t) && IsCyclicReport(ReportOf(ParseCyclictestText(rows).value), |rows|, t)
  {
    t := TimingsOf(rows);
    CyclicRowsSumUp(rows, t);
    CyclicKeysOnly(ParseCyclictestText(rows).value.metrics);
  }

  lemma CyclicTextYields(rows: seq<Latency>)
    ensures IsParsed(CyclicText(rows), ParseCyclictestText(rows))
  {
    if rows != [] { var t := RowsYield(rows); }
  }

  lemma CyclicJsonYields(entries: seq<Json>)
    ensures
      IsParsed(CyclicJson(Some(entries)),
        match Latencies(entries) case None => None case Some(rows) => ParseCyclictestText(rows))
  {
    forall t ensures EntriesSay(entries, t) <==> Latencies(entries).Some? && AreTimings(Latencies(entries).value, t) {
      LatenciesIff(entries, t);
    }
    LatenciesHaveLength(entries);
    if Latencies(entries).Some? && Latencies(entries).value != [] {
      var t := RowsYield(Latencies(entries).value);
      assert EntriesSay(entries, t);
    }
  }

  function LoadsOf(rows: seq<Stress>): Loads {
    Loads(
      seq(|rows|, i requires 0 <= i < |rows| => rows[i].bogoOps), seq(|rows|, i requires 0 <= i < |rows| => rows[i].realTime),
      seq(|rows|, i requires 0 <= i < |rows| => rows[i].usrTime), seq(|rows|, i requires 0 <= i < |rows| => rows[i].sysTime))
  }

  lemma StressYields(rows: seq<Stress>)
    ensures IsParsed(StressText(rows), StressOf(rows))
  {
    if rows != [] {
      var l := LoadsOf(rows);
      StressRowsSumUp(rows, l);
      StressKeysOnly(StressOf(rows).value.metrics);
      assert IsStressReport(ReportOf(StressOf(rows).value), |rows|, l);
    }
  }

  lemma PerfYields(seconds: Option<Amount>, groups: Option<nat>, processes: Option<nat>)
    ensures IsParsed(PerfText(seconds, groups, processes), ParsePerfMessaging(seconds, groups, processes))
  {
    if seconds.Some? {
      PerfSays(seconds.value, groups, processes);
      PerfKeysOnly(ParsePerfMessaging(seconds, groups, processes).value.metrics);
    }
  }

  lemma UnreadYields(family: Family)
    ensures IsParsed(Unread(family), Some(Parsed(map[], map[], 0, 0)))
  {
    assert UnitTable(map[]) == map[] && ToRow(map[]) == map[];
  }

  /** An input is parsed iff it yields a report, and then it yields what is parsed. */
  lemma ParsedIffYields(raw: Raw)
    ensures IsParsed(raw, MetricsOf(raw))
  {
    match raw
    case FioJson(jobs) => FioYields(jobs);
    case CyclicText(rows) => CyclicTextYields(rows);
    case CyclicJson(entries) => if entries.Some? { CyclicJsonYields(entries.value); }
    case PerfText(seconds, groups, processes) => PerfYields(seconds, groups, processes);
    case StressText(rows) => StressYields(rows);
    case Unread(family) => UnreadYields(family);
  }

  // ----- the record -----

  /** The family of an input, its tool, and whether it is recorded. */
  predicate IsNamed(raw: Raw, family: string, tool: string, recorded: bool) {
    match raw
    case CyclicJson(_) => family == "cyclictest" && tool == "cyclictest" && recorded
    case CyclicText(_) => family == "cyclictest" && tool == "cyclictest" && recorded
    case FioJson(_) => family == "fio" && tool == "fio" && recorded
    case PerfText(_, _, _) => family == "perf_bench_sched_messaging" && tool == "perf" && recorded
    case StressText(_) => family == "stress_ng" && tool == "stress-ng" && recorded
    case Unread(Rtla) => family == "rtla" && tool == "rtla" && !recorded
    case Unread(PerfSched) => family == "perf_sched" && tool == "perf" && !recorded
    case Unread(_) => false
  }

  lemma RawIsNamed(raw: Raw)
    requires IsRaw(raw)
    ensures IsNamed(raw, FamilyText(FamilyOf(raw)), ToolFor(FamilyOf(raw)), IsSupported(FamilyOf(raw)))
  {}

  /** The record of an input, field by field. */
  ghost predicate IsRecordOf(row: Row, raw: Raw, r: Report, output: string, digest: string, evidence: string) {
    && row.Keys == FIRST_KEYS + LATER_KEYS && SaysNoClaim(row)
    && SaysPaths(row, output, evidence) && SaysDigest(row, digest)
    && SaysTables(row, JObject(r.metrics), JObject(r.units)) && SaysCounts(row, JInt(r.samples), JInt(r.runs))
    && exists family, tool, recorded ::
         IsNamed(raw, family, tool, recorded) && SaysFamily(row, family, tool, StatusText(recorded)) && IsParsedAs(row, recorded)
  }

  lemma EntryIs(n: Name, key: string, family: Family, parsed: Parsed, output: string, digest: string, evidence: string)
    requires n in REQUIRED_NAMES && key == KeyOf(n)
    ensures Says(ToRow(RecordTable(family, parsed, output, digest, evidence)), key, RecordEntry(n, family, parsed, output, digest, evidence))
  {
    RowSays(RecordTable(family, parsed, output, digest, evidence), n, key);
  }

  lemma BuiltSaysInputs(family: Family, parsed: Parsed, output: string, digest: string, evidence: string)
    ensures
      var row := ToRow(RecordTable(family, parsed, output, digest, evidence));
      SaysPaths(row, output, evidence) && SaysDigest(row, digest)
  {
    EntryIs(OutputPath, "output_path", family, parsed, output, digest, evidence);
    EntryIs(VmEvidence, "vm_evidence", family, parsed, output, digest, evidence);
    EntryIs(OutputSha256, "output_sha256", family, parsed, output, digest, evidence);
  }

  lemma BuiltSaysTables(family: Family, parsed: Parsed, output: string, digest: string, evidence: string)
    ensures
      var row := ToRow(RecordTable(family, parsed, output, digest, evidence));
      SaysTables(row, JObject(ToRow(parsed.metrics)), JObject(ToRow(UnitTable(parsed.units))))
  {
    EntryIs(Metrics, "metrics", family, parsed, output, digest, evidence);
    EntryIs(Units, "units", family, parsed, output, digest, evidence);
  }

  lemma BuiltSaysCounts(family: Family, parsed: Parsed, output: string, digest: string, evidence: string)
    ensures
      SaysCounts(ToRow(RecordTable(family, parsed, output, digest, evidence)), JInt(parsed.samples), JInt(parsed.runs))
  {
    EntryIs(SampleCount, "sample_count", family, parsed, output, digest, evidence);
    EntryIs(RunCount, "run_count", family, parsed, output, digest, evidence);
  }

  lemma BuiltSaysFamily(family: Family, parsed: Parsed, output: string, digest: string, evidence: string)
    ensures
      var row := ToRow(RecordTable(family, parsed, output, digest, evidence));
      SaysFamily(row, FamilyText(family), ToolFor(family), StatusText(IsSupported(family)))
  {
    EntryIs(CommandFamily, "command_family", family, parsed, output, digest, evidence);
    EntryIs(Tool, "tool", family, parsed, output, digest, evidence);
    EntryIs(Status, "status", family, parsed, output, digest, evidence);
  }

  lemma BuiltIsParsedAs(family: Family, parsed: Parsed, output: string, digest: string, evidence: string)
    ensures IsParsedAs(ToRow(RecordTable(family, parsed, output, digest, evidence)), IsSupported(family))
  {
    EntryIs(ParserProvenance, "parser_provenance", family, parsed, output, digest, evidence);
    ProvenanceHolds(IsSupported(family));
    ProvenanceIff(ToRow(ProvenanceTable(IsSupported(family))), IsSupported(family));
  }

  lemma BuiltSaysNoClaim(family: Family, parsed: Parsed, output: string, digest: string, evidence: string)
    ensures
      var row := ToRow(RecordTable(family, parsed, output, digest, evidence));
      row.Keys == FIRST_KEYS + LATER_KEYS && SaysNoClaim(row)
  {
    var t := RecordTable(family, parsed, output, digest, evidence);
    FromToRow(t);
    KeysIff(ToRow(t));
    RecordIsFixed(family, parsed, output, digest, evidence);
    FixedFieldsIff(ToRow(t));
  }

  lemma BuiltIsRecord(raw: Raw, parsed: Parsed, output: string, digest: string, evidence: string)
    requires IsRaw(raw)
    ensures IsRecordOf(ToRow(RecordTable(FamilyOf(raw), parsed, output, digest, evidence)), raw, ReportOf(parsed), output, digest, evidence)
  {
    var f := FamilyOf(raw);
    RawIsNamed(raw);
    BuiltSaysInputs(f, parsed, output, digest, evidence);
    BuiltSaysTables(f, parsed, output, digest, evidence);
    BuiltSaysCounts(f, parsed, output, digest, evidence);
    BuiltSaysFamily(f, parsed, output, digest, evidence);
    BuiltIsParsedAs(f, parsed, output, digest, evidence);
    BuiltSaysNoClaim(f, parsed, output, digest, evidence);
  }

  /** A record is built iff the input yields a report and the paths are relative and give nothing
      away, and it is the record of what the input yields. */
  lemma RecordSays(raw: Raw, output: string, digest: string, evidence: string)
    requires IsRaw(raw)
    ensures
      match RecordOf(raw, output, digest, evidence)
      case None => !(IsRelative(output) && IsRelative(evidence) && exists r :: Yields(raw, r))
      case Some(row) =>
        IsRelative(output) && IsRelative(evidence)
        && exists r :: Yields(raw, r) && IsRecordOf(row, raw, r, output, digest, evidence)
  {
    ParsedIffYields(raw);
    RelativeIff(output);
    RelativeIff(evidence);
    if RecordOf(raw, output, digest, evidence).Some? {
      BuiltIsRecord(raw, MetricsOf(raw).value, output, digest, evidence);
    }
  }
}
