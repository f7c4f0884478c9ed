/** Building benchmark records (qa/benchmark_output_parse.py) and validating them
    (qa/benchmark_output_validate.py): how far producer and consumer agree. */
module BenchmarkAgreement {
  import opened Wrappers
  import opened Chars
  import opened JsonValue
  import opened BenchmarkPrivacy
  import opened BenchmarkRecord
  import opened BenchmarkFixedParts
  import opened Digests
  import PathSafety
  import opened TellingPairs

  // ----- the producer -----

  /** An input file, read as its family and suffix ask. */
  datatype Raw =
    | CyclicJson(threads: Option<seq<Json>>)
    | CyclicText(rows: seq<Latency>)
    | FioJson(jobs: Option<seq<Json>>)
    | PerfText(seconds: Option<Amount>, groups: Option<nat>, processes: Option<nat>)
    | StressText(stressors: seq<Stress>)
    | Unread(family: Family)

  predicate IsRaw(raw: Raw) { raw.Unread? ==> !IsSupported(raw.family) }

  function FamilyOf(raw: Raw): Family {
    match raw
    case CyclicJson(_) => Cyclictest
    case CyclicText(_) => Cyclictest
    case FioJson(_) => Fio
    case PerfText(_, _, _) => PerfBenchSchedMessaging
    case StressText(_) => StressNg
    case Unread(family) => family
  }

  /** The latencies of a cyclictest input, whichever format it has. */
  function CyclicRows(raw: Raw): Option<seq<Latency>> {
    match raw
    case CyclicText(rows) => Some(rows)
    case CyclicJson(Some(entries)) => Latencies(entries)
    case _ => None
  }

  function MetricsOf(raw: Raw): Option<Parsed> {
    match raw
    case FioJson(jobs) => FioOf(jobs)
    case PerfText(seconds, groups, processes) => ParsePerfMessaging(seconds, groups, processes)
    case StressText(rows) => StressOf(rows)
    case Unread(_) => Some(Parsed(map[], map[], 0, 0))
    case _ => if CyclicRows(raw).None? then None else ParseCyclictestText(CyclicRows(raw).value)
  }

  method ParseMetrics(raw: Raw) returns (r: Option<Parsed>)
    ensures r == MetricsOf(raw)
  {
    match raw
    case CyclicJson(threads) => r := ParseCyclictestJson(threads);
    case CyclicText(rows) => r := ParseCyclictestText(rows);
    case FioJson(jobs) => r := ParseFio(jobs);
    case PerfText(seconds, groups, processes) => r := ParsePerfMessaging(seconds, groups, processes);
    case StressText(rows) => r := ParseStressNg(rows);
    case Unread(_) => r := Some(Parsed(map[], map[], 0, 0));
  }

  /** `safe_relative` does not raise. */
  predicate IsSafeRelative(v: Json) {
    v.JStr? && v.s != "" && !PathSafety.IsAbsolute(v.s) && ".." !in PathSafety.Parts(v.s) && CleanText(v.s)
  }

  function ProvenanceTable(recorded: bool): Table {
    map[
      Parser := JStr(PARSER_NAME), ParserVersion := JStr(PARSER_VERSION),
      ParserStatus := JStr(if recorded then PARSED else DEFERRED)]
  }

  function RecordEntry(n: Name, family: Family, parsed: Parsed, output: string, digest: string, evidence: string): Json
    requires n in REQUIRED_NAMES
  {
    match n
    case Schema => JStr(SCHEMA)
    case Status => JStr(if IsSupported(family) then RECORDED else DEFERRED)
    case Tool => JStr(ToolFor(family))
    case CommandFamily => JStr(FamilyText(family))
    case RecordOnly => JBool(true)
    case OutputPath => JStr(output)
    case OutputSha256 => JStr(digest)
    case VmEvidence => JStr(evidence)
    case ParserProvenance => JObject(ToRow(ProvenanceTable(IsSupported(family))))
    case Metrics => JObject(ToRow(parsed.metrics))
    case Units => JObject(ToRow(UnitTable(parsed.units)))
    case SampleCount => JInt(parsed.samples)
    case RunCount => JInt(parsed.runs)
    case ThresholdStatus => JStr(RECORD_ONLY)
    case PrivacySanitized => JBool(true)
    case _ => JBool(false)
  }

  function RecordTable(family: Family, parsed: Parsed, output: string, digest: string, evidence: string): Table {
    map n | n in REQUIRED_NAMES :: RecordEntry(n, family, parsed, output, digest, evidence)
  }

  /** The record for an input whose SHA-256 is `digest`, if one is built. */
  function RecordOf(raw: Raw, output: string, digest: string, evidence: string): Option<Row> {
    if MetricsOf(raw).None? || !IsSafeRelative(JStr(output)) || !IsSafeRelative(JStr(evidence)) then None
    else Some(ToRow(RecordTable(FamilyOf(raw), MetricsOf(raw).value, output, digest, evidence)))
  }

  /** `build_record`. */
  method BuildRecord(raw: Raw, output: string, digest: string, evidence: string) returns (r: Option<Row>)
    ensures r == RecordOf(raw, output, digest, evidence)
  {
    var parsed := ParseMetrics(raw);
    if parsed.None? || !IsSafeRelative(JStr(output)) || !IsSafeRelative(JStr(evidence)) { return None; }
    return Some(ToRow(RecordTable(FamilyOf(raw), parsed.value, output, digest, evidence)));
  }

  // ----- the consumer -----

  const NESTED: set<Name> := {ParserProvenance, Metrics, Units}

  /** A JSON object, by the names of the fields it has. */
  function FromRow(row: Row): Table {
    map n: Name | KeyOf(n) in row :: row[KeyOf(n)]
  }

  predicate HasExactly(row: Row, names: set<Name>) {
    row.Keys == set n | n in names :: KeyOf(n)
  }

  predicate Is(t: Table, n: Name, s: string) { n in t && t[n] == JStr(s) }

  predicate IsProvenance(parser: Row, recorded: bool) {
    && HasExactly(parser, {Parser, ParserVersion, ParserStatus})
    && HasProvenance(FromRow(parser), recorded)
  }

  predicate HasProvenance(parser: Table, recorded: bool) {
    && Is(parser, Parser, PARSER_NAME) && Is(parser, ParserVersion, PARSER_VERSION)
    && Is(parser, ParserStatus, if recorded then PARSED else DEFERRED)
  }

  /** A nonnegative number with a unit. */
  predicate IsMetric(metrics: Row, units: Row, name: string) {
    && name in metrics && Num(Some(metrics[name])).Some?
    && name in units && units[name].JStr? && units[name].s != ""
  }

  predicate AreMetrics(metrics: Row, units: Row) {
    forall name | name in metrics :: IsMetric(metrics, units, name)
  }

  predicate IsFamily(t: Table, family: Family) {
    Is(t, CommandFamily, FamilyText(family)) && Is(t, Tool, ToolFor(family))
  }

  predicate AreCounts(samples: Option<int>, runs: Option<int>, family: Family, recorded: bool, metrics: Row, units: Row) {
    && samples.Some? && runs.Some?
    && if recorded then IsSupported(family) && metrics != map[] && samples.value > 0 && runs.value > 0
       else !IsSupported(family) && metrics == map[] && units == map[] && samples.value == 0 && runs.value == 0
  }

  function IntOf(t: Table, n: Name): Option<int> {
    if n in t then AsInt(Some(t[n])) else None
  }

  predicate IsCompleteFor(t: Table, family: Family) {
    && var recorded := Is(t, Status, RECORDED);
    && IsFamily(t, family)
    && NESTED <= t.Keys && t[ParserProvenance].JObject? && t[Metrics].JObject? && t[Units].JObject?
    && IsProvenance(t[ParserProvenance].fields, recorded)
    && AreMetrics(t[Metrics].fields, t[Units].fields)
    && AreCounts(IntOf(t, SampleCount), IntOf(t, RunCount), family, recorded, t[Metrics].fields, t[Units].fields)
  }

  const FIXED: set<Name> := {
    Schema, RecordOnly, HostMutation, ReleaseEligible, ProductionCapacityClaim, HardThresholdsEnforced, ThresholdStatus,
    PrivacySanitized}

  function FixedEntry(n: Name): Json {
    match n
    case Schema => JStr(SCHEMA)
    case ThresholdStatus => JStr(RECORD_ONLY)
    case RecordOnly => JBool(true)
    case PrivacySanitized => JBool(true)
    case _ => JBool(false)
  }

  predicate IsFixedAt(t: Table, n: Name) { n in t && t[n] == FixedEntry(n) }

  predicate HasFixedFields(t: Table) { forall n | n in FIXED :: IsFixedAt(t, n) }

  predicate HasInputs(t: Table) {
    && {OutputPath, VmEvidence, OutputSha256} <= t.Keys
    && IsSafeRelative(t[OutputPath]) && IsSafeRelative(t[VmEvidence])
    && t[OutputSha256].JStr? && IsTaken(t[OutputSha256].s)
  }

  predicate IsValidTable(t: Table) {
    && HasFixedFields(t) && HasInputs(t)
    && (Is(t, Status, RECORDED) || Is(t, Status, DEFERRED))
    && exists family :: IsCompleteFor(t, family)
  }

  /** `validate_record` does not raise. */
  predicate Validates(row: Row) {
    Accepts(JObject(row), "record") && HasExactly(row, REQUIRED_NAMES) && IsValidTable(FromRow(row))
  }

  // ----- the scan passes what the producer writes -----

  /** A table's keys pass and so do its values, once they are leaves. */
  predicate IsLeaf(v: Json, pass: string -> bool) {
    v.JBool? || v.JInt? || v.JFloat? || (v.JStr? && pass(v.s))
  }

  lemma LeafIsAccepted(v: Json, context: string)
    requires IsLeaf(v, CleanText)
    ensures Accepts(v, context)
  {}

  lemma TableIsAccepted(t: Table, context: string)
    requires forall n | n in t :: (!IsControl(n) || context == "record") && Accepts(t[n], context + "." + KeyOf(n))
    ensures Accepts(JObject(ToRow(t)), context)
  {
    RowHasTable(t);
    forall n | n in t ensures !ForbiddenKey(KeyOf(n), context) {
      if IsControl(n) { ControlKeyIsExempt(n); } else { KeyIsClean(n); }
    }
  }

  lemma LeavesAreAccepted(t: Table, context: string)
    requires forall n | n in t :: !IsControl(n) && IsLeaf(t[n], CleanText)
    ensures Accepts(JObject(ToRow(t)), context)
  {
    forall n | n in t ensures Accepts(t[n], context + "." + KeyOf(n)) {
      LeafIsAccepted(t[n], context + "." + KeyOf(n));
    }
    TableIsAccepted(t, context);
  }

  // ----- what the parsers yield -----

  predicate IsAmount(v: Json) { (v.JInt? && v.n >= 0) || (v.JFloat? && v.r >= 0.0) }

  ghost predicate IsSound(p: Parsed) {
    && p.metrics.Keys == p.units.Keys
    && (forall n | n in p.metrics :: !IsControl(n) && IsAmount(p.metrics[n]))
  }

  lemma LatencyIsSound(rows: seq<Latency>)
    requires rows != []
    ensures IsSound(ParseCyclictestText(rows).value)
  {
    var n := |rows| as real;
    QuotientIsAmount(Total(rows, MinOf), n);
    QuotientIsAmount(Total(rows, AvgOf), n);
    var p := ParseCyclictestText(rows).value;
    assert p.metrics.Keys == {Threads, Cycles, LatencyMin, LatencyAvg, LatencyMax} == LATENCY_UNITS.Keys;
  }

  lemma QuotientIsAmount(a: Amount, n: real)
    requires n > 0.0
    ensures a / n >= 0.0
  {}

  lemma FioIsSound(jobs: nat, read: Section, write: Section)
    requires jobs > 0
    ensures IsSound(FioParsed(jobs, read, write)) && Jobs in FioParsed(jobs, read, write).metrics
  {
    var n := jobs as real;
    QuotientIsAmount(read.lat, n);
    QuotientIsAmount(write.lat, n);
    assert FioParsed(jobs, read, write).metrics.Keys
        == {Jobs, ReadIops, ReadBw, ReadLat, WriteIops, WriteBw, WriteLat} == FIO_UNITS.Keys;
  }

  lemma PerfIsSound(seconds: Option<Amount>, groups: Option<nat>, processes: Option<nat>)
    requires seconds.Some?
    ensures var p := ParsePerfMessaging(seconds, groups, processes).value; IsSound(p) && TotalTime in p.metrics
  {}

  lemma StressIsSound(rows: seq<Stress>)
    requires rows != []
    ensures var p := StressOf(rows).value; IsSound(p) && Stressors in p.metrics
  {
    assert StressOf(rows).value.metrics.Keys == {Stressors, BogoOps, RealTime, UsrTime, SysTime} == STRESS_UNITS.Keys;
  }

  predicate IsShort(raw: Raw) {
    FamilyOf(raw) == Cyclictest && CyclicRows(raw).Some? && Total(CyclicRows(raw).value, CyclesOf) < 1.0
  }

  lemma ParsersAreSound(raw: Raw)
    requires IsRaw(raw) && MetricsOf(raw).Some?
    ensures IsSound(MetricsOf(raw).value)
    ensures IsSupported(FamilyOf(raw)) ==>
      MetricsOf(raw).value.metrics != map[] && MetricsOf(raw).value.runs > 0
      && (MetricsOf(raw).value.samples > 0 <==> !IsShort(raw))
  {
    match raw
    case FioJson(jobs) =>
      FioIsSound(|jobs.value|, TotalSection(Sections(jobs.value, "read").value), TotalSection(Sections(jobs.value, "write").value));
    case PerfText(seconds, groups, processes) => PerfIsSound(seconds, groups, processes);
    case StressText(rows) => StressIsSound(rows);
    case Unread(_) =>
    case CyclicText(rows) => LatencyIsSound(rows); CyclicCounts(rows);
    case CyclicJson(_) => LatencyIsSound(CyclicRows(raw).value); CyclicCounts(CyclicRows(raw).value);
  }

  lemma CyclicCounts(rows: seq<Latency>)
    requires rows != []
    ensures var p := ParseCyclictestText(rows).value;
      p.metrics != map[] && p.runs > 0 && (p.samples > 0 <==> Total(rows, CyclesOf) >= 1.0)
  {
    assert Threads in ParseCyclictestText(rows).value.metrics;
  }

  // ----- agreement -----

  lemma HexLineIsClean(s: string)
    requires forall i | 0 <= i < |s| :: IsHex(s[i]) || s[i] == '\n'
    ensures CleanText(s)
  {
    var lowered := Lower(s);
    forall i: nat | i < |lowered| ensures !TellsAt(lowered, i) {
      assert IsHex(lowered[i]) || lowered[i] == '\n';
      assert i + 1 < |lowered| ==> IsHex(lowered[i + 1]) || lowered[i + 1] == '\n';
    }
    QuietTextIsClean(s);
  }

  ghost predicate LeavesPass(t: Table, pass: string -> bool) {
    forall n | n in t && n !in NESTED :: IsLeaf(t[n], pass)
  }

  /** The context in which the scan meets the field `n` of the record. */
  function FieldContext(n: Name): string { "record" + "." + KeyOf(n) }

  ghost predicate NestedPass(t: Table, context: Name -> string) {
    && NESTED <= t.Keys
    && Accepts(t[ParserProvenance], context(ParserProvenance))
    && Accepts(t[Metrics], context(Metrics)) && Accepts(t[Units], context(Units))
  }

  lemma PartsAreLeaves(family: Family, parsed: Parsed, output: string, digest: string, evidence: string, pass: string -> bool)
    requires FixedTextsPass(pass) && pass(output) && pass(digest) && pass(evidence)
    ensures LeavesPass(RecordTable(family, parsed, output, digest, evidence), pass)
  {}

  lemma TablesAreLeaves(recorded: bool, units: map<Name, Unit>, pass: string -> bool)
    requires FixedTextsPass(pass)
    ensures forall n | n in ProvenanceTable(recorded) :: !IsControl(n) && IsLeaf(ProvenanceTable(recorded)[n], pass)
    ensures forall n | n in units :: IsLeaf(UnitTable(units)[n], pass)
  {}

  lemma TablesAreAccepted(recorded: bool, parsed: Parsed, context: string)
    requires IsSound(parsed)
    ensures Accepts(JObject(ToRow(ProvenanceTable(recorded))), context)
    ensures Accepts(JObject(ToRow(parsed.metrics)), context)
    ensures Accepts(JObject(ToRow(UnitTable(parsed.units))), context)
  {
    FixedTextsAreClean();
    TablesAreLeaves(recorded, parsed.units, CleanText);
    LeavesAreAccepted(ProvenanceTable(recorded), context);
    LeavesAreAccepted(parsed.metrics, context);
    LeavesAreAccepted(UnitTable(parsed.units), context);
  }

  lemma TablesPass(t: Table, family: Family, parsed: Parsed, context: Name -> string)
    requires IsSound(parsed) && HoldsTables(t, family, parsed)
    ensures NestedPass(t, context)
  {
    TablesAreAccepted(IsSupported(family), parsed, context(ParserProvenance));
    TablesAreAccepted(IsSupported(family), parsed, context(Metrics));
    TablesAreAccepted(IsSupported(family), parsed, context(Units));
  }

  lemma EntriesAreAccepted(t: Table)
    requires LeavesPass(t, CleanText) && NestedPass(t, FieldContext)
    ensures Accepts(JObject(ToRow(t)), "record")
  {
    forall n | n in t ensures Accepts(t[n], "record" + "." + KeyOf(n)) {
      if n !in NESTED { LeafIsAccepted(t[n], FieldContext(n)); }
    }
    TableIsAccepted(t, "record");
  }

  /** The scan for private data accepts every record the producer builds. */
  lemma BuiltRecordIsAccepted(family: Family, parsed: Parsed, output: string, digest: string, evidence: string)
    requires IsSound(parsed)
    requires CleanText(output) && CleanText(digest) && CleanText(evidence)
    ensures Accepts(JObject(ToRow(RecordTable(family, parsed, output, digest, evidence))), "record")
  {
    FixedTextsAreClean();
    PartsAreLeaves(family, parsed, output, digest, evidence, CleanText);
    RecordHoldsTables(family, parsed, output, digest, evidence);
    TablesPass(RecordTable(family, parsed, output, digest, evidence), family, parsed, FieldContext);
    EntriesAreAccepted(RecordTable(family, parsed, output, digest, evidence));
  }

  lemma FromToRow(t: Table)
    ensures FromRow(ToRow(t)) == t && HasExactly(ToRow(t), t.Keys)
  {
    RowHasTable(t);
  }

  lemma ProvenanceHolds(recorded: bool)
    ensures IsProvenance(ToRow(ProvenanceTable(recorded)), recorded)
  {
    var t := ProvenanceTable(recorded);
    FromToRow(t);
    assert t.Keys == {Parser, ParserVersion, ParserStatus};
    assert HasProvenance(t, recorded);
  }

  lemma EmptyRow(t: Table)
    ensures ToRow(t) == map[] <==> t == map[]
  {
    RowHasTable(t);
    if n :| n in t {
      assert KeyOf(n) in ToRow(t);
    }
  }

  lemma UnitTextIsNotEmpty(u: Unit)
    ensures UnitText(u) != ""
  {}

  lemma MetricFrom(metrics: Row, units: Row, key: string, value: Json, unit: string)
    requires Get(metrics, key) == Some(value) && IsAmount(value)
    requires Get(units, key) == Some(JStr(unit)) && unit != ""
    ensures IsMetric(metrics, units, key)
  {}

  lemma FieldOf(t: Table, n: Name)
    requires n in t
    ensures Get(ToRow(t), KeyOf(n)) == Some(t[n])
  {
    RowHasTable(t);
  }

  lemma MetricHolds(parsed: Parsed, n: Name)
    requires IsSound(parsed) && n in parsed.metrics
    ensures IsMetric(ToRow(parsed.metrics), ToRow(UnitTable(parsed.units)), KeyOf(n))
  {
    FieldOf(parsed.metrics, n);
    FieldOf(UnitTable(parsed.units), n);
    UnitTextIsNotEmpty(parsed.units[n]);
    MetricFrom(ToRow(parsed.metrics), ToRow(UnitTable(parsed.units)), KeyOf(n), parsed.metrics[n], UnitText(parsed.units[n]));
  }

  lemma MetricsHold(parsed: Parsed)
    requires IsSound(parsed)
    ensures AreMetrics(ToRow(parsed.metrics), ToRow(UnitTable(parsed.units)))
  {
    var metrics, units := ToRow(parsed.metrics), ToRow(UnitTable(parsed.units));
    RowHasTable(parsed.metrics);
    forall name | name in metrics ensures IsMetric(metrics, units, name) {
      var n :| n in parsed.metrics && name == KeyOf(n);
      MetricHolds(parsed, n);
    }
  }

  lemma TablesAreEmptyTogether(parsed: Parsed)
    ensures ToRow(parsed.metrics) == map[] <==> parsed.metrics == map[]
    ensures ToRow(UnitTable(parsed.units)) == map[] <==> parsed.units == map[]
  {
    EmptyRow(parsed.metrics);
    EmptyRow(UnitTable(parsed.units));
    assert UnitTable(parsed.units).Keys == parsed.units.Keys;
  }

  predicate HasCounts(parsed: Parsed, recorded: bool) {
    if recorded then parsed.metrics != map[] && parsed.samples > 0 && parsed.runs > 0
    else parsed.metrics == map[] && parsed.units == map[] && parsed.samples == 0 && parsed.runs == 0
  }

  lemma FamilyTextTells(f: Family, g: Family)
    ensures FamilyText(f) == FamilyText(g) <==> f == g
  {}

  ghost predicate Describes(t: Table, family: Family, parsed: Parsed) {
    NamesFamily(t, family) && HoldsTables(t, family, parsed) && HoldsCounts(t, parsed)
  }

  ghost predicate NamesFamily(t: Table, family: Family) {
    && {Status, CommandFamily, Tool} <= t.Keys
    && t[Status] == JStr(if IsSupported(family) then RECORDED else DEFERRED)
    && t[CommandFamily] == JStr(FamilyText(family)) && t[Tool] == JStr(ToolFor(family))
  }

  ghost predicate HoldsTables(t: Table, family: Family, parsed: Parsed) {
    && NESTED <= t.Keys
    && t[ParserProvenance] == JObject(ToRow(ProvenanceTable(IsSupported(family))))
    && t[Metrics] == JObject(ToRow(parsed.metrics)) && t[Units] == JObject(ToRow(UnitTable(parsed.units)))
  }

  ghost predicate HoldsCounts(t: Table, parsed: Parsed) {
    {SampleCount, RunCount} <= t.Keys && t[SampleCount] == JInt(parsed.samples) && t[RunCount] == JInt(parsed.runs)
  }

  lemma StatusTells(t: Table, family: Family, parsed: Parsed)
    requires Describes(t, family, parsed)
    ensures Is(t, Status, RECORDED) <==> IsSupported(family)
    ensures Is(t, Status, RECORDED) || Is(t, Status, DEFERRED)
  {
    assert |RECORDED| != |DEFERRED|;
  }

  lemma FamilyTells(t: Table, family: Family, parsed: Parsed, tried: Family)
    requires Describes(t, family, parsed)
    ensures IsFamily(t, tried) <==> tried == family
  {
    FamilyTextTells(tried, family);
  }

  lemma CountsTell(t: Table, family: Family, parsed: Parsed)
    requires Describes(t, family, parsed)
    ensures AreCounts(IntOf(t, SampleCount), IntOf(t, RunCount), family, IsSupported(family), t[Metrics].fields, t[Units].fields)
      <==> HasCounts(parsed, IsSupported(family))
  {
    TablesAreEmptyTogether(parsed);
    assert IntOf(t, SampleCount) == Some(parsed.samples) && IntOf(t, RunCount) == Some(parsed.runs);
    var metrics, units := t[Metrics].fields, t[Units].fields;
    assert metrics == map[] <==> parsed.metrics == map[];
    assert units == map[] <==> parsed.units == map[];
  }

  /** Whatever family a validator tries, only the record's own fits, and then its counts
      decide. */
  lemma FamilyCompletes(t: Table, family: Family, parsed: Parsed, tried: Family)
    requires Describes(t, family, parsed) && IsSound(parsed)
    ensures IsCompleteFor(t, tried) <==> tried == family && HasCounts(parsed, IsSupported(family))
  {
    StatusTells(t, family, parsed);
    FamilyTells(t, family, parsed, tried);
    ProvenanceHolds(IsSupported(family));
    MetricsHold(parsed);
    CountsTell(t, family, parsed);
  }

  ghost predicate FitsOnly(t: Table, family: Family, ok: bool) {
    forall tried :: IsCompleteFor(t, tried) <==> tried == family && ok
  }

  lemma CountsDecide(t: Table, family: Family, parsed: Parsed)
    requires Describes(t, family, parsed) && IsSound(parsed)
    ensures FitsOnly(t, family, HasCounts(parsed, IsSupported(family)))
  {
    forall tried ensures IsCompleteFor(t, tried) <==> tried == family && HasCounts(parsed, IsSupported(family)) {
      FamilyCompletes(t, family, parsed, tried);
    }
  }

  lemma ValidIffFits(t: Table, family: Family, ok: bool)
    requires HasFixedFields(t) && HasInputs(t) && (Is(t, Status, RECORDED) || Is(t, Status, DEFERRED))
    requires FitsOnly(t, family, ok)
    ensures IsValidTable(t) <==> ok
  {
    assert IsCompleteFor(t, family) <==> ok;
  }

  lemma RecordNamesFamily(family: Family, parsed: Parsed, output: string, digest: string, evidence: string)
    ensures NamesFamily(RecordTable(family, parsed, output, digest, evidence), family)
  {}

  /** `t` holds the entry `n` of a record. */
  predicate Holds(t: Table, n: Name, family: Family, parsed: Parsed, output: string, digest: string, evidence: string)
    requires n in REQUIRED_NAMES
  {
    n in t && t[n] == RecordEntry(n, family, parsed, output, digest, evidence)
  }

  lemma RecordHolds(n: Name, family: Family, parsed: Parsed, output: string, digest: string, evidence: string)
    requires n in REQUIRED_NAMES
    ensures Holds(RecordTable(family, parsed, output, digest, evidence), n, family, parsed, output, digest, evidence)
  {}

  lemma HoldsNested(t: Table, family: Family, parsed: Parsed, output: string, digest: string, evidence: string)
    requires Holds(t, ParserProvenance, family, parsed, output, digest, evidence)
    requires Holds(t, Metrics, family, parsed, output, digest, evidence)
    requires Holds(t, Units, family, parsed, output, digest, evidence)
    ensures HoldsTables(t, family, parsed)
  {}

  lemma RecordHoldsTables(family: Family, parsed: Parsed, output: string, digest: string, evidence: string)
    ensures HoldsTables(RecordTable(family, parsed, output, digest, evidence), family, parsed)
  {
    RecordHolds(ParserProvenance, family, parsed, output, digest, evidence);
    RecordHolds(Metrics, family, parsed, output, digest, evidence);
    RecordHolds(Units, family, parsed, output, digest, evidence);
    HoldsNested(RecordTable(family, parsed, output, digest, evidence), family, parsed, output, digest, evidence);
  }

  lemma RecordHoldsCounts(family: Family, parsed: Parsed, output: string, digest: string, evidence: string)
    ensures HoldsCounts(RecordTable(family, parsed, output, digest, evidence), parsed)
  {}

  lemma RecordIsFixed(family: Family, parsed: Parsed, output: string, digest: string, evidence: string)
    ensures HasFixedFields(RecordTable(family, parsed, output, digest, evidence))
  {
    RecordIsFixedAt(Schema, family, parsed, output, digest, evidence);
    RecordIsFixedAt(RecordOnly, family, parsed, output, digest, evidence);
    RecordIsFixedAt(HostMutation, family, parsed, output, digest, evidence);
    RecordIsFixedAt(ReleaseEligible, family, parsed, output, digest, evidence);
    RecordIsFixedAt(ProductionCapacityClaim, family, parsed, output, digest, evidence);
    RecordIsFixedAt(HardThresholdsEnforced, family, parsed, output, digest, evidence);
    RecordIsFixedAt(ThresholdStatus, family, parsed, output, digest, evidence);
    RecordIsFixedAt(PrivacySanitized, family, parsed, output, digest, evidence);
  }

  lemma RecordIsFixedAt(n: Name, family: Family, parsed: Parsed, output: string, digest: string, evidence: string)
    requires n in REQUIRED_NAMES && RecordEntry(n, family, parsed, output, digest, evidence) == FixedEntry(n)
    ensures IsFixedAt(RecordTable(family, parsed, output, digest, evidence), n)
  {
    RecordHolds(n, family, parsed, output, digest, evidence);
  }

  lemma RecordHasInputs(family: Family, parsed: Parsed, output: string, digest: string, evidence: string)
    requires IsSafeRelative(JStr(output)) && IsSafeRelative(JStr(evidence)) && IsDigest(digest)
    ensures HasInputs(RecordTable(family, parsed, output, digest, evidence))
  {}

  /** Once the scan has passed, the counts decide. */
  lemma ValidIffCounts(family: Family, parsed: Parsed, output: string, digest: string, evidence: string)
    requires IsSafeRelative(JStr(output)) && IsSafeRelative(JStr(evidence)) && IsDigest(digest) && IsSound(parsed)
    ensures IsValidTable(RecordTable(family, parsed, output, digest, evidence)) <==> HasCounts(parsed, IsSupported(family))
  {
    var t := RecordTable(family, parsed, output, digest, evidence);
    RecordNamesFamily(family, parsed, output, digest, evidence);
    RecordHoldsTables(family, parsed, output, digest, evidence);
    RecordHoldsCounts(family, parsed, output, digest, evidence);
    RecordIsFixed(family, parsed, output, digest, evidence);
    RecordHasInputs(family, parsed, output, digest, evidence);
    StatusTells(t, family, parsed);
    CountsDecide(t, family, parsed);
    ValidIffFits(t, family, HasCounts(parsed, IsSupported(family)));
  }

  lemma ValidByTable(row: Row, t: Table)
    requires Accepts(JObject(row), "record") && HasExactly(row, REQUIRED_NAMES) && FromRow(row) == t
    ensures Validates(row) <==> IsValidTable(t)
  {}

  lemma ShortIffNoCounts(raw: Raw)
    requires IsRaw(raw) && MetricsOf(raw).Some?
    ensures HasCounts(MetricsOf(raw).value, IsSupported(FamilyOf(raw))) <==> !IsShort(raw)
  {
    ParsersAreSound(raw);
  }

  lemma BuiltRowIsValid(family: Family, parsed: Parsed, output: string, digest: string, evidence: string)
    requires IsSafeRelative(JStr(output)) && IsSafeRelative(JStr(evidence)) && IsDigest(digest) && IsSound(parsed)
    ensures Validates(ToRow(RecordTable(family, parsed, output, digest, evidence))) <==> HasCounts(parsed, IsSupported(family))
  {
    var t := RecordTable(family, parsed, output, digest, evidence);
    HexLineIsClean(digest);
    BuiltRecordIsAccepted(family, parsed, output, digest, evidence);
    FromToRow(t);
    ValidByTable(ToRow(t), t);
    ValidIffCounts(family, parsed, output, digest, evidence);
  }

  /** The validator accepts every record the producer builds, except that a cyclictest
      record is accepted iff its total cycles reach 1. */
  lemma BuiltRecordValidatesUnlessShort(raw: Raw, output: string, digest: string, evidence: string)
    requires IsRaw(raw) && IsDigest(digest) && RecordOf(raw, output, digest, evidence).Some?
    ensures Validates(RecordOf(raw, output, digest, evidence).value) <==> !IsShort(raw)
  {
    ParsersAreSound(raw);
    ShortIffNoCounts(raw);
    BuiltRowIsValid(FamilyOf(raw), MetricsOf(raw).value, output, digest, evidence);
  }

  // ----- a recorded run that is rejected -----

  const STILL: Raw := CyclicText([Latency(0.0, 0.0, 0.0, 0.0)])

  /** One thread with no cycle: a record is built, and then rejected. */
  lemma StillRunIsBuiltAndRejected(digest: string)
    requires IsDigest(digest)
    ensures RecordOf(STILL, "a", digest, "a").Some? && !Validates(RecordOf(STILL, "a", digest, "a").value)
  {
    var path := "a";
    StillIsShort();
    SafePath(path);
    BuiltRecordValidatesUnlessShort(STILL, path, digest, path);
  }

  lemma StillIsShort()
    ensures IsRaw(STILL) && MetricsOf(STILL).Some? && IsShort(STILL)
  {
    var rows := STILL.rows;
    assert rows[..0] == [];
    assert Total(rows, CyclesOf) == 0.0;
  }

  lemma SafePath(path: string)
    requires path == "a"
    ensures IsSafeRelative(JStr(path))
  {
    FixedTextIsClean("a");
    assert "a"[1..] == "";
  }

  // ----- a digest with a final newline -----

  lemma AcceptsOtherText(row: Row, key: string, s: string)
    requires Accepts(JObject(row), "record") && key in row && CleanText(s)
    ensures Accepts(JObject(row[key := JStr(s)]), "record")
  {
    assert Accepts(JStr(s), "record" + "." + key);
  }

  /** `g` is `f` with `v` for `n`, as far as `m` goes. */
  predicate SameAt(f: Table, g: Table, n: Name, v: Json, m: Name) {
    (m in g <==> m in f) && (m in f && m in g ==> g[m] == if m == n then v else f[m])
  }

  ghost predicate SameBut(f: Table, g: Table, n: Name, v: Json) {
    n in f && forall m: Name :: SameAt(f, g, n, v, m)
  }

  lemma FieldWith(row: Row, key: string, n: Name, v: Json, m: Name)
    requires key == KeyOf(n) && key in row
    ensures n in FromRow(row) && SameAt(FromRow(row), FromRow(row[key := v]), n, v, m)
  {
    if KeyOf(m) == key { KeysAreDistinct(m, n); }
  }

  lemma SameButIsUpdate(f: Table, g: Table, n: Name, v: Json)
    requires SameBut(f, g, n, v)
    ensures g == f[n := v]
  {
    assert SameAt(f, g, n, v, n);
    forall m: Name | m in f ensures m in g && g[m] == f[n := v][m] { assert SameAt(f, g, n, v, m); }
    forall m: Name | m in g ensures m in f { assert SameAt(f, g, n, v, m); }
  }

  lemma FromRowWith(row: Row, key: string, n: Name, v: Json)
    requires key == KeyOf(n) && key in row
    ensures SameBut(FromRow(row), FromRow(row[key := v]), n, v)
  {
    var f, g := FromRow(row), FromRow(row[key := v]);
    FieldWith(row, key, n, v, n);
    forall m: Name ensures SameAt(f, g, n, v, m) { FieldWith(row, key, n, v, m); }
  }

  lemma InputsWithDigest(t: Table, s: string)
    requires HasInputs(t) && IsTaken(s)
    ensures HasInputs(t[OutputSha256 := JStr(s)])
  {}

  /** The entries that completeness is about. */
  const JUDGED: set<Name> := {Status, CommandFamily, Tool, ParserProvenance, Metrics, Units, SampleCount, RunCount}

  lemma SameJudgedComplete(t: Table, u: Table, family: Family)
    requires IsCompleteFor(t, family)
    requires forall n | n in JUDGED :: (n in u <==> n in t) && (n in t ==> u[n] == t[n])
    ensures IsCompleteFor(u, family)
  {
    assert Is(u, Status, RECORDED) == Is(t, Status, RECORDED);
    assert IsFamily(u, family);
    assert NESTED <= u.Keys && forall n | n in NESTED :: u[n] == t[n];
    assert IntOf(u, SampleCount) == IntOf(t, SampleCount) && IntOf(u, RunCount) == IntOf(t, RunCount);
  }

  lemma CompleteWithDigest(t: Table, s: string, family: Family)
    requires IsCompleteFor(t, family)
    ensures IsCompleteFor(t[OutputSha256 := JStr(s)], family)
  {
    assert OutputSha256 !in JUDGED;
    SameJudgedComplete(t, t[OutputSha256 := JStr(s)], family);
  }

  lemma FixedWithDigest(t: Table, s: string)
    requires HasFixedFields(t)
    ensures HasFixedFields(t[OutputSha256 := JStr(s)])
  {}

  lemma StatusWithDigest(t: Table, s: string, status: string)
    ensures Is(t[OutputSha256 := JStr(s)], Status, status) <==> Is(t, Status, status)
  {}

  lemma ValidWithDigest(t: Table, s: string)
    requires IsValidTable(t) && IsTaken(s)
    ensures IsValidTable(t[OutputSha256 := JStr(s)])
  {
    InputsWithDigest(t, s);
    FixedWithDigest(t, s);
    StatusWithDigest(t, s, RECORDED);
    StatusWithDigest(t, s, DEFERRED);
    var family :| IsCompleteFor(t, family);
    CompleteWithDigest(t, s, family);
  }

  lemma KeysWith(row: Row, key: string, v: Json, names: set<Name>)
    requires HasExactly(row, names) && key in row
    ensures HasExactly(row[key := v], names)
  {
    assert row[key := v].Keys == row.Keys;
  }

  lemma TableWith(row: Row, key: string, line: string)
    requires key == KeyOf(OutputSha256) && key in row && IsValidTable(FromRow(row)) && IsTaken(line)
    ensures IsValidTable(FromRow(row[key := JStr(line)]))
  {
    FromRowWith(row, key, OutputSha256, JStr(line));
    SameButIsUpdate(FromRow(row), FromRow(row[key := JStr(line)]), OutputSha256, JStr(line));
    ValidWithDigest(FromRow(row), line);
  }

  lemma StaysValid(row: Row, key: string, line: string)
    requires Validates(row) && key == KeyOf(OutputSha256) && key in row && IsTaken(line) && CleanText(line)
    ensures Validates(row[key := JStr(line)])
  {
    AcceptsOtherText(row, key, line);
    KeysWith(row, key, JStr(line), REQUIRED_NAMES);
    TableWith(row, key, line);
  }

  lemma LineIsTaken(s: string, line: string)
    requires IsDigest(s) && line == s + "\n"
    ensures IsTaken(line) && CleanText(line) && !IsDigest(line)
  {
    HexLineIsClean(line);
  }

  /** A valid record stays valid when a newline is added to its digest, which then is none. */
  lemma NewlineInDigestIsValid(row: Row, key: string, s: string, line: string)
    requires Validates(row) && key == KeyOf(OutputSha256) && Get(row, key) == Some(JStr(s)) && IsDigest(s)
    requires line == s + "\n"
    ensures Validates(row[key := JStr(line)]) && !IsDigest(line)
  {
    LineIsTaken(s, line);
    StaysValid(row, key, line);
  }
}
