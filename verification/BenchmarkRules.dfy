/** What a built record holds and which records are valid, field by field, by the text of the
    keys: neither is told by the producer's table or the validator's. */
module BenchmarkRules {
  import opened Wrappers
  import opened JsonValue
  import opened BenchmarkRecord
  import opened BenchmarkAgreement
  import opened Digests
  import BenchmarkLeaks
  import BenchmarkMetrics
  import PathSafety

  predicate Says(row: Row, key: string, v: Json) { Get(row, key) == Some(v) }

  predicate SaysPaths(row: Row, output: string, evidence: string) {
    Says(row, "output_path", JStr(output)) && Says(row, "vm_evidence", JStr(evidence))
  }

  predicate SaysDigest(row: Row, digest: string) { Says(row, "output_sha256", JStr(digest)) }

  predicate SaysFamily(row: Row, family: string, tool: string, status: string) {
    Says(row, "command_family", JStr(family)) && Says(row, "tool", JStr(tool)) && Says(row, "status", JStr(status))
  }

  predicate SaysTables(row: Row, metrics: Json, units: Json) {
    Says(row, "metrics", metrics) && Says(row, "units", units)
  }

  predicate SaysCounts(row: Row, samples: Json, runs: Json) {
    Says(row, "sample_count", samples) && Says(row, "run_count", runs)
  }

  /** Nothing was mutated, nothing is claimed, and only a record is kept. */
  predicate SaysNoClaim(row: Row) {
    && Says(row, "schema", JStr(SCHEMA)) && Says(row, "record_only", JBool(true)) && Says(row, "privacy_sanitized", JBool(true))
    && Says(row, "host_mutation", JBool(false)) && Says(row, "release_eligible", JBool(false))
    && SaysNoThreshold(row)
  }

  predicate SaysNoThreshold(row: Row) {
    && Says(row, "production_capacity_claim", JBool(false)) && Says(row, "hard_thresholds_enforced", JBool(false))
    && Says(row, "threshold_status", JStr("record_only"))
  }

  predicate IsProvenanceOf(parser: Row, status: string) {
    && parser.Keys == {"parser", "parser_version", "parser_status"}
    && Says(parser, "parser", JStr(PARSER_NAME)) && Says(parser, "parser_version", JStr(PARSER_VERSION))
    && Says(parser, "parser_status", JStr(status))
  }

  /** The six families, their tools, and whether they are recorded. */
  predicate IsKnown(family: string, tool: string, recorded: bool) {
    || (recorded && ((family == "cyclictest" && tool == "cyclictest") || (family == "fio" && tool == "fio")
      || (family == "perf_bench_sched_messaging" && tool == "perf") || (family == "stress_ng" && tool == "stress-ng")))
    || (!recorded && ((family == "rtla" && tool == "rtla") || (family == "perf_sched" && tool == "perf")))
  }

  lemma FamilyIsKnown(f: Family)
    ensures IsKnown(FamilyText(f), ToolFor(f), IsSupported(f))
  {}

  lemma KnownIsFamily(family: string, tool: string, recorded: bool) returns (f: Family)
    requires IsKnown(family, tool, recorded)
    ensures family == FamilyText(f) && tool == ToolFor(f) && recorded == IsSupported(f)
  {
    f := if family == "cyclictest" then Cyclictest else if family == "fio" then Fio
      else if family == "perf_bench_sched_messaging" then PerfBenchSchedMessaging
      else if family == "stress_ng" then StressNg else if family == "rtla" then Rtla else PerfSched;
  }

  // ----- fields by name and by key -----

  /** The field `n` of an object is what stands under `key`. */
  lemma FieldAt(row: Row, n: Name, key: string)
    requires key == KeyOf(n)
    ensures n in FromRow(row) <==> key in row
    ensures key in row ==> FromRow(row)[n] == row[key]
  {}

  lemma TextAt(row: Row, n: Name, key: string, s: string)
    requires key == KeyOf(n)
    ensures Is(FromRow(row), n, s) <==> Says(row, key, JStr(s))
  {}

  lemma FixedAt(row: Row, n: Name, key: string)
    requires key == KeyOf(n)
    ensures IsFixedAt(FromRow(row), n) <==> Says(row, key, FixedEntry(n))
  {}

  lemma FlagsAt(row: Row)
    ensures IsFixedAt(FromRow(row), Schema) <==> Says(row, "schema", JStr(SCHEMA))
    ensures IsFixedAt(FromRow(row), RecordOnly) <==> Says(row, "record_only", JBool(true))
    ensures IsFixedAt(FromRow(row), PrivacySanitized) <==> Says(row, "privacy_sanitized", JBool(true))
  {
    FixedAt(row, Schema, "schema");
    FixedAt(row, RecordOnly, "record_only");
    FixedAt(row, PrivacySanitized, "privacy_sanitized");
  }

  lemma RefusalsAt(row: Row)
    ensures IsFixedAt(FromRow(row), HostMutation) <==> Says(row, "host_mutation", JBool(false))
    ensures IsFixedAt(FromRow(row), ReleaseEligible) <==> Says(row, "release_eligible", JBool(false))
  {
    FixedAt(row, HostMutation, "host_mutation");
    FixedAt(row, ReleaseEligible, "release_eligible");
  }

  lemma ThresholdsAt(row: Row)
    ensures
      IsFixedAt(FromRow(row), ProductionCapacityClaim) && IsFixedAt(FromRow(row), HardThresholdsEnforced)
      && IsFixedAt(FromRow(row), ThresholdStatus)
      <==> SaysNoThreshold(row)
  {
    FixedAt(row, ProductionCapacityClaim, "production_capacity_claim");
    FixedAt(row, HardThresholdsEnforced, "hard_thresholds_enforced");
    FixedAt(row, ThresholdStatus, "threshold_status");
  }

  lemma FixedFieldsIff(row: Row)
    ensures HasFixedFields(FromRow(row)) <==> SaysNoClaim(row)
  {
    FlagsAt(row);
    RefusalsAt(row);
    ThresholdsAt(row);
    FixedNames(FromRow(row));
  }

  lemma FixedNames(t: Table)
    ensures HasFixedFields(t) <==>
      && IsFixedAt(t, Schema) && IsFixedAt(t, RecordOnly) && IsFixedAt(t, PrivacySanitized)
      && IsFixedAt(t, HostMutation) && IsFixedAt(t, ReleaseEligible)
      && IsFixedAt(t, ProductionCapacityClaim) && IsFixedAt(t, HardThresholdsEnforced) && IsFixedAt(t, ThresholdStatus)
  {}

  // ----- the keys -----

  const FIRST_KEYS: set<string> := {
    "schema", "status", "tool", "command_family", "record_only", "output_path", "output_sha256", "vm_evidence",
    "parser_provenance", "metrics"}
  const LATER_KEYS: set<string> := {
    "units", "sample_count", "run_count", "host_mutation", "release_eligible", "production_capacity_claim",
    "hard_thresholds_enforced", "threshold_status", "privacy_sanitized"}

  const FIRST_NAMES: set<Name> := {
    Schema, Status, Tool, CommandFamily, RecordOnly, OutputPath, OutputSha256, VmEvidence, ParserProvenance, Metrics}

  lemma FirstNamesAreKeys(n: Name)
    requires n in FIRST_NAMES
    ensures KeyOf(n) in FIRST_KEYS
  {}

  lemma LaterNamesAreKeys(n: Name)
    requires n in REQUIRED_NAMES - FIRST_NAMES
    ensures KeyOf(n) in LATER_KEYS
  {}

  lemma FirstKeysAreNames(key: string) returns (n: Name)
    requires key in FIRST_KEYS
    ensures n in FIRST_NAMES && KeyOf(n) == key
  {
    n := if key == "schema" then Schema else if key == "status" then Status else if key == "tool" then Tool
      else if key == "command_family" then CommandFamily else if key == "record_only" then RecordOnly
      else if key == "output_path" then OutputPath else if key == "output_sha256" then OutputSha256
      else if key == "vm_evidence" then VmEvidence else if key == "parser_provenance" then ParserProvenance else Metrics;
  }

  lemma LaterKeysAreNames(key: string) returns (n: Name)
    requires key in LATER_KEYS
    ensures n in REQUIRED_NAMES && KeyOf(n) == key
  {
    n := if key == "units" then Units else if key == "sample_count" then SampleCount else if key == "run_count" then RunCount
      else if key == "host_mutation" then HostMutation else if key == "release_eligible" then ReleaseEligible
      else if key == "production_capacity_claim" then ProductionCapacityClaim
      else if key == "hard_thresholds_enforced" then HardThresholdsEnforced
      else if key == "threshold_status" then ThresholdStatus else PrivacySanitized;
  }

  lemma KeysIff(row: Row)
    ensures HasExactly(row, REQUIRED_NAMES) <==> row.Keys == FIRST_KEYS + LATER_KEYS
  {
    var keys := set n | n in REQUIRED_NAMES :: KeyOf(n);
    forall key | key in keys ensures key in FIRST_KEYS + LATER_KEYS {
      var n :| n in REQUIRED_NAMES && key == KeyOf(n);
      if n in FIRST_NAMES { FirstNamesAreKeys(n); } else { LaterNamesAreKeys(n); }
    }
    forall key | key in FIRST_KEYS + LATER_KEYS ensures key in keys {
      var n;
      if key in FIRST_KEYS { n := FirstKeysAreNames(key); } else { n := LaterKeysAreNames(key); }
      assert n in REQUIRED_NAMES;
    }
    assert keys == FIRST_KEYS + LATER_KEYS;
  }

  // ----- the inputs -----

  /** A relative path without a segment "..", that gives nothing away. */
  ghost predicate IsRelative(s: string) {
    && s != "" && s[0] != '/' && (forall i | 0 <= i <= |s| :: !PathSafety.SegmentAt(s, i))
    && !BenchmarkLeaks.IsPrivateText(s)
  }

  lemma RelativeIff(s: string)
    ensures IsSafeRelative(JStr(s)) <==> IsRelative(s)
  {
    PathSafety.SafeIffNoDotDotSegment(s);
    BenchmarkLeaks.CleanTextIff(s);
    assert IsSafeRelative(JStr(s)) <==> PathSafety.IsSafePath(s) && BenchmarkPrivacy.CleanText(s);
  }

  ghost predicate HasRelative(row: Row, key: string) {
    exists s :: Says(row, key, JStr(s)) && IsRelative(s)
  }

  ghost predicate HasDigest(row: Row) {
    exists s :: SaysDigest(row, s) && IsTaken(s)
  }

  lemma PathAt(row: Row, n: Name, key: string)
    requires key == KeyOf(n)
    ensures HasRelative(row, key) <==> n in FromRow(row) && IsSafeRelative(FromRow(row)[n])
  {
    FieldAt(row, n, key);
    if key in row && row[key].JStr? { RelativeIff(row[key].s); }
  }

  lemma OutputAt(row: Row)
    ensures HasRelative(row, "output_path") <==> OutputPath in FromRow(row) && IsSafeRelative(FromRow(row)[OutputPath])
  {
    PathAt(row, OutputPath, "output_path");
  }

  lemma EvidenceAt(row: Row)
    ensures HasRelative(row, "vm_evidence") <==> VmEvidence in FromRow(row) && IsSafeRelative(FromRow(row)[VmEvidence])
  {
    PathAt(row, VmEvidence, "vm_evidence");
  }

  lemma DigestAt(row: Row)
    ensures HasDigest(row) <==>
      OutputSha256 in FromRow(row) && FromRow(row)[OutputSha256].JStr? && IsTaken(FromRow(row)[OutputSha256].s)
  {
    FieldAt(row, OutputSha256, "output_sha256");
  }

  lemma InputsIff(row: Row)
    ensures HasInputs(FromRow(row)) <==> HasRelative(row, "output_path") && HasRelative(row, "vm_evidence") && HasDigest(row)
  {
    OutputAt(row);
    EvidenceAt(row);
    DigestAt(row);
  }

  // ----- the family, the tables and the counts -----

  function StatusText(recorded: bool): string { if recorded then "RECORDED" else "UNSUPPORTED_DEFERRED" }
  function ParserText(recorded: bool): string { if recorded then "PARSED" else "UNSUPPORTED_DEFERRED" }

  ghost predicate IsKnownAs(row: Row, recorded: bool) {
    exists family, tool :: IsKnown(family, tool, recorded) && SaysFamily(row, family, tool, StatusText(recorded))
  }

  ghost predicate IsParsedAs(row: Row, recorded: bool) {
    exists parser :: Says(row, "parser_provenance", JObject(parser)) && IsProvenanceOf(parser, ParserText(recorded))
  }

  /** A nonnegative number with a unit. */
  ghost predicate IsMeasured(metrics: Row, units: Row, key: string) {
    && key in metrics && (exists r :: BenchmarkMetrics.IsNumber(metrics[key], r))
    && exists unit :: unit != "" && Says(units, key, JStr(unit))
  }

  /** There are metrics, samples and runs, or else none of them. */
  predicate IsCounted(metrics: Row, units: Row, samples: int, runs: int, recorded: bool) {
    if recorded then metrics != map[] && samples > 0 && runs > 0
    else metrics == map[] && units == map[] && samples == 0 && runs == 0
  }

  ghost predicate IsMeasuredBy(metrics: Json, units: Json, samples: Json, runs: Json, recorded: bool) {
    && metrics.JObject? && units.JObject? && AsInt(Some(samples)).Some? && AsInt(Some(runs)).Some?
    && (forall key | key in metrics.fields :: IsMeasured(metrics.fields, units.fields, key))
    && IsCounted(metrics.fields, units.fields, AsInt(Some(samples)).value, AsInt(Some(runs)).value, recorded)
  }

  ghost predicate IsMeasuredAs(row: Row, recorded: bool) {
    exists metrics, units, samples, runs ::
      && SaysTables(row, metrics, units) && SaysCounts(row, samples, runs)
      && IsMeasuredBy(metrics, units, samples, runs, recorded)
  }

  /** What a valid record is. */
  ghost predicate IsValidRecord(row: Row) {
    && BenchmarkLeaks.NothingLeaks(JObject(row), "record")
    && row.Keys == FIRST_KEYS + LATER_KEYS && SaysNoClaim(row)
    && HasRelative(row, "output_path") && HasRelative(row, "vm_evidence") && HasDigest(row)
    && exists recorded :: IsKnownAs(row, recorded) && IsParsedAs(row, recorded) && IsMeasuredAs(row, recorded)
  }

  lemma FamilyAt(row: Row, f: Family)
    ensures IsFamily(FromRow(row), f) <==>
      Says(row, "command_family", JStr(FamilyText(f))) && Says(row, "tool", JStr(ToolFor(f)))
  {
    TextAt(row, CommandFamily, "command_family", FamilyText(f));
    TextAt(row, Tool, "tool", ToolFor(f));
  }

  lemma StatusAt(row: Row, recorded: bool)
    ensures Is(FromRow(row), Status, if recorded then RECORDED else DEFERRED) <==> Says(row, "status", JStr(StatusText(recorded)))
  {
    TextAt(row, Status, "status", StatusText(recorded));
  }

  lemma ProvenanceKeys(parser: Row)
    ensures HasExactly(parser, {Parser, ParserVersion, ParserStatus}) <==>
      parser.Keys == {"parser", "parser_version", "parser_status"}
  {
    KeysOfThree(Parser, ParserVersion, ParserStatus);
    assert KeyOf(Parser) == "parser";
    assert KeyOf(ParserVersion) == "parser_version";
    assert KeyOf(ParserStatus) == "parser_status";
  }

  lemma KeysOfThree(a: Name, b: Name, c: Name)
    ensures (set n | n in {a, b, c} :: KeyOf(n)) == {KeyOf(a), KeyOf(b), KeyOf(c)}
  {}

  lemma ProvenanceFields(parser: Row, status: string)
    ensures Is(FromRow(parser), Parser, PARSER_NAME) <==> Says(parser, "parser", JStr(PARSER_NAME))
    ensures Is(FromRow(parser), ParserVersion, PARSER_VERSION) <==> Says(parser, "parser_version", JStr(PARSER_VERSION))
    ensures Is(FromRow(parser), ParserStatus, status) <==> Says(parser, "parser_status", JStr(status))
  {
    TextAt(parser, Parser, "parser", PARSER_NAME);
    TextAt(parser, ParserVersion, "parser_version", PARSER_VERSION);
    TextAt(parser, ParserStatus, "parser_status", status);
  }

  lemma ProvenanceIff(parser: Row, recorded: bool)
    ensures IsProvenance(parser, recorded) <==> IsProvenanceOf(parser, ParserText(recorded))
  {
    ProvenanceKeys(parser);
    ProvenanceFields(parser, ParserText(recorded));
  }

  lemma MetricIff(metrics: Row, units: Row, key: string)
    ensures IsMetric(metrics, units, key) <==> IsMeasured(metrics, units, key)
  {
    if key in metrics {
      forall r ensures Num(Some(metrics[key])) == Some(r) <==> BenchmarkMetrics.IsNumber(metrics[key], r) {
        BenchmarkMetrics.NumIff(metrics[key], r);
      }
      if Num(Some(metrics[key])).Some? { assert BenchmarkMetrics.IsNumber(metrics[key], Num(Some(metrics[key])).value); }
    }
    if IsMetric(metrics, units, key) { assert Says(units, key, JStr(units[key].s)); }
  }

  lemma MetricsIff(metrics: Row, units: Row)
    ensures AreMetrics(metrics, units) <==> forall key | key in metrics :: IsMeasured(metrics, units, key)
  {
    forall key | key in metrics ensures IsMetric(metrics, units, key) <==> IsMeasured(metrics, units, key) {
      MetricIff(metrics, units, key);
    }
  }

  /** The entry `n` of the table is the field `key` of the row. */
  predicate Same(t: Table, n: Name, row: Row, key: string) {
    (n in t <==> key in row) && (n in t && key in row ==> t[n] == row[key])
  }

  lemma NestedAt(row: Row)
    ensures Same(FromRow(row), ParserProvenance, row, "parser_provenance")
    ensures Same(FromRow(row), Metrics, row, "metrics") && Same(FromRow(row), Units, row, "units")
  {
    FieldAt(row, ParserProvenance, "parser_provenance");
    FieldAt(row, Metrics, "metrics");
    FieldAt(row, Units, "units");
  }

  lemma CountsAt(row: Row)
    ensures Same(FromRow(row), SampleCount, row, "sample_count") && Same(FromRow(row), RunCount, row, "run_count")
  {
    FieldAt(row, SampleCount, "sample_count");
    FieldAt(row, RunCount, "run_count");
  }

  predicate HasParser(t: Table, recorded: bool) {
    ParserProvenance in t && t[ParserProvenance].JObject? && IsProvenance(t[ParserProvenance].fields, recorded)
  }

  predicate HasMeasures(t: Table, recorded: bool) {
    && Metrics in t && t[Metrics].JObject? && Units in t && t[Units].JObject?
    && AreMetrics(t[Metrics].fields, t[Units].fields)
    && IntOf(t, SampleCount).Some? && IntOf(t, RunCount).Some?
    && IsCounted(t[Metrics].fields, t[Units].fields, IntOf(t, SampleCount).value, IntOf(t, RunCount).value, recorded)
  }

  /** What completeness asks of the table besides the family's name. */
  predicate IsFilledAs(t: Table, recorded: bool) { HasParser(t, recorded) && HasMeasures(t, recorded) }

  lemma CompleteIffFilled(t: Table, f: Family)
    ensures IsCompleteFor(t, f) <==>
      IsFamily(t, f) && IsSupported(f) == Is(t, Status, RECORDED) && IsFilledAs(t, Is(t, Status, RECORDED))
  {}

  lemma ParserIff(row: Row, recorded: bool)
    ensures HasParser(FromRow(row), recorded) <==> IsParsedAs(row, recorded)
  {
    NestedAt(row);
    if v :| Get(row, "parser_provenance") == Some(v) && v.JObject? { ProvenanceIff(v.fields, recorded); }
  }

  lemma MeasuredIff(row: Row, recorded: bool)
    ensures HasMeasures(FromRow(row), recorded) <==> IsMeasuredAs(row, recorded)
  {
    NestedAt(row);
    CountsAt(row);
    var t := FromRow(row);
    if HasMeasures(t, recorded) {
      MetricsIff(t[Metrics].fields, t[Units].fields);
      assert SaysTables(row, t[Metrics], t[Units]) && SaysCounts(row, t[SampleCount], t[RunCount]);
      assert IsMeasuredBy(t[Metrics], t[Units], t[SampleCount], t[RunCount], recorded);
    }
    if metrics, units, samples, runs :|
      && SaysTables(row, metrics, units) && SaysCounts(row, samples, runs)
      && IsMeasuredBy(metrics, units, samples, runs, recorded)
    {
      MetricsIff(metrics.fields, units.fields);
    }
  }

  lemma FilledIff(row: Row, recorded: bool)
    ensures IsFilledAs(FromRow(row), recorded) <==> IsParsedAs(row, recorded) && IsMeasuredAs(row, recorded)
  {
    ParserIff(row, recorded);
    MeasuredIff(row, recorded);
  }

  lemma KnownIff(row: Row, recorded: bool)
    ensures IsKnownAs(row, recorded) <==>
      Says(row, "status", JStr(StatusText(recorded))) && exists f :: IsFamily(FromRow(row), f) && IsSupported(f) == recorded
  {
    if IsKnownAs(row, recorded) {
      var family, tool :| IsKnown(family, tool, recorded) && SaysFamily(row, family, tool, StatusText(recorded));
      var f := KnownIsFamily(family, tool, recorded);
      FamilyAt(row, f);
    }
    if f :| IsFamily(FromRow(row), f) && IsSupported(f) == recorded {
      FamilyAt(row, f);
      FamilyIsKnown(f);
      assert Says(row, "status", JStr(StatusText(recorded))) ==> SaysFamily(row, FamilyText(f), ToolFor(f), StatusText(recorded));
    }
  }

  lemma StatusesDiffer()
    ensures RECORDED != DEFERRED && StatusText(true) == RECORDED && StatusText(false) == DEFERRED
  {
    assert |RECORDED| != |DEFERRED|;
  }

  /** Exactly which records are valid. */
  lemma ValidatesIff(row: Row)
    ensures Validates(row) <==> IsValidRecord(row)
  {
    var t := FromRow(row);
    BenchmarkLeaks.AcceptsIffNothingLeaks(JObject(row), "record");
    KeysIff(row);
    FixedFieldsIff(row);
    InputsIff(row);
    CompleteSomehowIff(row);
  }

  ghost predicate IsCompleteSomehow(t: Table) {
    (Is(t, Status, RECORDED) || Is(t, Status, DEFERRED)) && exists f :: IsCompleteFor(t, f)
  }

  lemma CompleteSomehowIff(row: Row)
    ensures IsCompleteSomehow(FromRow(row)) <==>
      exists recorded :: IsKnownAs(row, recorded) && IsParsedAs(row, recorded) && IsMeasuredAs(row, recorded)
  {
    var t := FromRow(row);
    StatusesDiffer();
    forall recorded: bool
      ensures Is(t, Status, StatusText(recorded)) <==> Says(row, "status", JStr(StatusText(recorded)))
      ensures IsKnownAs(row, recorded) <==>
        Says(row, "status", JStr(StatusText(recorded))) && exists f :: IsFamily(t, f) && IsSupported(f) == recorded
      ensures IsFilledAs(t, recorded) <==> IsParsedAs(row, recorded) && IsMeasuredAs(row, recorded)
    {
      StatusAt(row, recorded);
      KnownIff(row, recorded);
      FilledIff(row, recorded);
    }
    forall f ensures IsCompleteFor(t, f) <==>
      IsFamily(t, f) && IsSupported(f) == Is(t, Status, RECORDED) && IsFilledAs(t, Is(t, Status, RECORDED))
    {
      CompleteIffFilled(t, f);
    }
    if IsCompleteSomehow(t) {
      var recorded := Is(t, Status, RECORDED);
      assert IsKnownAs(row, recorded) && IsParsedAs(row, recorded) && IsMeasuredAs(row, recorded);
    }
    if recorded :| IsKnownAs(row, recorded) && IsParsedAs(row, recorded) && IsMeasuredAs(row, recorded) {
      assert Is(t, Status, StatusText(recorded)) && Is(t, Status, RECORDED) == recorded;
    }
  }
}
