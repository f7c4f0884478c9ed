/** Every fixed key and text of a benchmark record is clean.  The lemmas evaluate each one;
    the assertions take a long one piece by piece, from its end. */
module BenchmarkFixedParts {
  import opened BenchmarkPrivacy
  import opened BenchmarkRecord
  import opened TellingPairs

  lemma RecordStateKeys()
    ensures CleanKey("schema") && CleanKey("status") && CleanKey("tool")
  {
    QuietKey("schema");
    QuietKey("status");
    QuietKey("tool");
  }

  lemma RecordPathKeys()
    ensures CleanKey("output_path") && CleanKey("output_sha256")
  {
    assert QuietNameFrom("output_path", 10, 't');
    assert QuietNameFrom("output_path", 5, 'u');
    QuietKey("output_path");
    assert QuietNameFrom("output_sha256", 10, 'a');
    assert QuietNameFrom("output_sha256", 5, 'u');
    QuietKey("output_sha256");
  }

  lemma EvidenceKeys()
    ensures CleanKey("vm_evidence") && CleanKey("record_only")
  {
    assert QuietNameFrom("vm_evidence", 10, 'c');
    assert QuietNameFrom("vm_evidence", 5, 'v');
    QuietKey("vm_evidence");
    assert QuietNameFrom("record_only", 10, 'l');
    assert QuietNameFrom("record_only", 5, 'r');
    QuietKey("record_only");
  }

  lemma MetricKeys()
    ensures CleanKey("metrics") && CleanKey("units")
  {
    QuietKey("metrics");
    QuietKey("units");
  }

  lemma CountKeys()
    ensures CleanKey("sample_count") && CleanKey("run_count")
  {
    assert QuietNameFrom("sample_count", 10, 'u');
    assert QuietNameFrom("sample_count", 5, 'l');
    QuietKey("sample_count");
    QuietKey("run_count");
  }

  lemma MutationKeys()
    ensures CleanKey("host_mutation")
  {
    assert QuietNameFrom("host_mutation", 10, 't');
    assert QuietNameFrom("host_mutation", 5, 't');
    QuietKey("host_mutation");
  }

  lemma PrivacyKeys()
    ensures CleanKey("privacy_sanitized")
  {
    assert QuietNameFrom("privacy_sanitized", 15, 'z');
    assert QuietNameFrom("privacy_sanitized", 10, 'a');
    assert QuietNameFrom("privacy_sanitized", 5, 'a');
    QuietKey("privacy_sanitized");
  }

  lemma FamilyKeys()
    ensures CleanKey("command_family")
  {
    assert QuietNameFrom("command_family", 10, 'a');
    assert QuietNameFrom("command_family", 5, 'a');
    QuietKey("command_family");
  }

  lemma ProvenanceKeys()
    ensures CleanKey("parser_provenance")
  {
    assert QuietNameFrom("parser_provenance", 15, 'n');
    assert QuietNameFrom("parser_provenance", 10, 'o');
    assert QuietNameFrom("parser_provenance", 5, 'e');
    QuietKey("parser_provenance");
  }

  lemma ParserKeys()
    ensures CleanKey("parser") && CleanKey("parser_version")
  {
    QuietKey("parser");
    assert QuietNameFrom("parser_version", 10, 'r');
    assert QuietNameFrom("parser_version", 5, 'e');
    QuietKey("parser_version");
  }

  lemma ParserStatusKeys()
    ensures CleanKey("parser_status")
  {
    assert QuietNameFrom("parser_status", 10, 'a');
    assert QuietNameFrom("parser_status", 5, 'e');
    QuietKey("parser_status");
  }

  lemma ThreadKeys()
    ensures CleanKey("threads") && CleanKey("cycles") && CleanKey("jobs")
  {
    QuietKey("threads");
    QuietKey("cycles");
    QuietKey("jobs");
  }

  lemma LeastLatencyKeys()
    ensures CleanKey("latency_min_us_avg")
  {
    assert QuietNameFrom("latency_min_us_avg", 15, 's');
    assert QuietNameFrom("latency_min_us_avg", 10, 'i');
    assert QuietNameFrom("latency_min_us_avg", 5, 'n');
    QuietKey("latency_min_us_avg");
  }

  lemma MeanLatencyKeys()
    ensures CleanKey("latency_avg_us_avg")
  {
    assert QuietNameFrom("latency_avg_us_avg", 15, 's');
    assert QuietNameFrom("latency_avg_us_avg", 10, 'v');
    assert QuietNameFrom("latency_avg_us_avg", 5, 'n');
    QuietKey("latency_avg_us_avg");
  }

  lemma GreatestLatencyKeys()
    ensures CleanKey("latency_max_us")
  {
    assert QuietNameFrom("latency_max_us", 10, 'a');
    assert QuietNameFrom("latency_max_us", 5, 'n');
    QuietKey("latency_max_us");
  }

  lemma ReadKeys()
    ensures CleanKey("read_iops") && CleanKey("read_bw_bytes")
  {
    QuietKey("read_iops");
    assert QuietNameFrom("read_bw_bytes", 10, 'y');
    assert QuietNameFrom("read_bw_bytes", 5, 'd');
    QuietKey("read_bw_bytes");
  }

  lemma ReadLatencyKeys()
    ensures CleanKey("read_lat_ns_mean_avg")
  {
    assert QuietNameFrom("read_lat_ns_mean_avg", 15, 'a');
    assert QuietNameFrom("read_lat_ns_mean_avg", 10, 'n');
    assert QuietNameFrom("read_lat_ns_mean_avg", 5, 'd');
    QuietKey("read_lat_ns_mean_avg");
  }

  lemma WriteKeys()
    ensures CleanKey("write_iops") && CleanKey("write_bw_bytes")
  {
    assert QuietNameFrom("write_iops", 5, 'e');
    QuietKey("write_iops");
    assert QuietNameFrom("write_bw_bytes", 10, 'b');
    assert QuietNameFrom("write_bw_bytes", 5, 'e');
    QuietKey("write_bw_bytes");
  }

  lemma WriteLatencyKeys()
    ensures CleanKey("write_lat_ns_mean_avg")
  {
    assert QuietNameFrom("write_lat_ns_mean_avg", 20, 'v');
    assert QuietNameFrom("write_lat_ns_mean_avg", 15, 'e');
    assert QuietNameFrom("write_lat_ns_mean_avg", 10, 't');
    assert QuietNameFrom("write_lat_ns_mean_avg", 5, 'e');
    QuietKey("write_lat_ns_mean_avg");
  }

  lemma MessagingKeys()
    ensures CleanKey("groups") && CleanKey("processes")
  {
    QuietKey("groups");
    QuietKey("processes");
  }

  lemma StressKeys()
    ensures CleanKey("stressors") && CleanKey("bogo_ops")
  {
    QuietKey("stressors");
    QuietKey("bogo_ops");
  }

  lemma TotalTimeKeys()
    ensures CleanKey("total_time_seconds")
  {
    assert QuietNameFrom("total_time_seconds", 15, 'o');
    assert QuietNameFrom("total_time_seconds", 10, 'e');
    assert QuietNameFrom("total_time_seconds", 5, 'l');
    QuietKey("total_time_seconds");
  }

  lemma RealTimeKeys()
    ensures CleanKey("real_time_seconds")
  {
    assert QuietNameFrom("real_time_seconds", 15, 'n');
    assert QuietNameFrom("real_time_seconds", 10, 'e');
    assert QuietNameFrom("real_time_seconds", 5, 'l');
    QuietKey("real_time_seconds");
  }

  lemma UserTimeKeys()
    ensures CleanKey("usr_time_seconds")
  {
    assert QuietNameFrom("usr_time_seconds", 15, 'd');
    assert QuietNameFrom("usr_time_seconds", 10, 's');
    assert QuietNameFrom("usr_time_seconds", 5, 't');
    QuietKey("usr_time_seconds");
  }

  lemma SystemTimeKeys()
    ensures CleanKey("sys_time_seconds")
  {
    assert QuietNameFrom("sys_time_seconds", 15, 'd');
    assert QuietNameFrom("sys_time_seconds", 10, 's');
    assert QuietNameFrom("sys_time_seconds", 5, 't');
    QuietKey("sys_time_seconds");
  }

  predicate IsControl(n: Name) {
    n in {ReleaseEligible, ProductionCapacityClaim, HardThresholdsEnforced, ThresholdStatus}
  }

  /** No fixed key is forbidden, but for the four that only the record itself may have. */
  lemma KeyIsClean(n: Name)
    requires !IsControl(n)
    ensures CleanKey(KeyOf(n))
  {
    match n
    case Schema | Status | Tool => RecordStateKeys();
    case OutputPath | OutputSha256 => RecordPathKeys();
    case VmEvidence | RecordOnly => EvidenceKeys();
    case Metrics | Units => MetricKeys();
    case SampleCount | RunCount => CountKeys();
    case HostMutation => MutationKeys();
    case PrivacySanitized => PrivacyKeys();
    case CommandFamily => FamilyKeys();
    case ParserProvenance => ProvenanceKeys();
    case Parser | ParserVersion => ParserKeys();
    case ParserStatus => ParserStatusKeys();
    case Threads | Cycles | Jobs => ThreadKeys();
    case LatencyMin => LeastLatencyKeys();
    case LatencyAvg => MeanLatencyKeys();
    case LatencyMax => GreatestLatencyKeys();
    case ReadIops | ReadBw => ReadKeys();
    case ReadLat => ReadLatencyKeys();
    case WriteIops | WriteBw => WriteKeys();
    case WriteLat => WriteLatencyKeys();
    case Groups | Processes => MessagingKeys();
    case Stressors | BogoOps => StressKeys();
    case TotalTime => TotalTimeKeys();
    case RealTime => RealTimeKeys();
    case UsrTime => UserTimeKeys();
    case SysTime => SystemTimeKeys();
    case _ =>
  }

  lemma ControlKeyIsExempt(n: Name)
    requires IsControl(n)
    ensures !ForbiddenKey(KeyOf(n), "record")
  {}

  lemma CyclictestTexts()
    ensures CleanText("cyclictest") && CleanText("fio")
  {
    assert QuietTextFrom("cyclictest", 5, 'i');
    FixedTextIsClean("cyclictest");
    FixedTextIsClean("fio");
  }

  lemma TraceTexts()
    ensures CleanText("rtla") && CleanText("perf_sched")
  {
    FixedTextIsClean("rtla");
    assert QuietTextFrom("perf_sched", 5, '_');
    FixedTextIsClean("perf_sched");
  }

  lemma PerfTexts()
    ensures CleanText("perf")
  {
    FixedTextIsClean("perf");
  }

  lemma StressTexts()
    ensures CleanText("stress_ng") && CleanText("stress-ng")
  {
    assert QuietTextFrom("stress_ng", 5, 's');
    FixedTextIsClean("stress_ng");
    assert QuietTextFrom("stress-ng", 5, 's');
    FixedTextIsClean("stress-ng");
  }

  lemma RecordedTexts()
    ensures CleanText("RECORDED") && CleanText("PARSED")
  {
    assert QuietTextFrom("RECORDED", 5, 'r');
    FixedTextIsClean("RECORDED");
    FixedTextIsClean("PARSED");
  }

  lemma RecordOnlyTexts()
    ensures CleanText("record_only")
  {
    assert QuietTextFrom("record_only", 10, 'l');
    assert QuietTextFrom("record_only", 5, 'r');
    FixedTextIsClean("record_only");
  }

  lemma CountUnits()
    ensures CleanText("count") && CleanText("us") && CleanText("iops")
  {
    FixedTextIsClean("count");
    FixedTextIsClean("us");
    FixedTextIsClean("iops");
  }

  lemma TimeUnits()
    ensures CleanText("ns") && CleanText("seconds")
  {
    FixedTextIsClean("ns");
    FixedTextIsClean("seconds");
  }

  lemma ByteUnits()
    ensures CleanText("bytes_per_second")
  {
    assert QuietTextFrom("bytes_per_second", 15, 'n');
    assert QuietTextFrom("bytes_per_second", 10, '_');
    assert QuietTextFrom("bytes_per_second", 5, 's');
    FixedTextIsClean("bytes_per_second");
  }

  lemma DeferredTexts()
    ensures CleanText("UNSUPPORTED_DEFERRED")
  {
    assert QuietTextFrom("UNSUPPORTED_DEFERRED", 15, 'f');
    assert QuietTextFrom("UNSUPPORTED_DEFERRED", 10, 'e');
    assert QuietTextFrom("UNSUPPORTED_DEFERRED", 5, 'p');
    FixedTextIsClean("UNSUPPORTED_DEFERRED");
  }

  lemma VersionIsQuiet()
    ensures QuietTextFrom(PARSER_VERSION, 0, '_')
  {
    assert QuietTextFrom("benchmark-output/v1", 14, 'p');
    assert QuietTextFrom("benchmark-output/v1", 7, 'a');
  }

  lemma ParserNameHalves()
    ensures QuietTextFrom("qa/benchmark", 0, '_') && QuietTextFrom("_output_parse.py", 0, '_')
  {
    assert QuietTextFrom("qa/benchmark", 7, 'c');
    assert QuietTextFrom("_output_parse.py", 14, '.');
    assert QuietTextFrom("_output_parse.py", 7, 't');
  }

  lemma ParserNameIsHalves()
    ensures PARSER_NAME == "qa/benchmark" + "_output_parse.py"
  {}

  lemma ParserName()
    ensures CleanText(PARSER_NAME)
  {
    ParserNameIsHalves();
    ParserNameHalves();
    JoinedTextIsClean("qa/benchmark", "_output_parse.py");
  }

  lemma BenchMessagingHalves()
    ensures QuietTextFrom("perf_bench", 0, '_') && QuietTextFrom("_sched_messaging", 0, '_')
  {
    assert QuietTextFrom("perf_bench", 7, 'e');
    assert QuietTextFrom("_sched_messaging", 14, 'i');
    assert QuietTextFrom("_sched_messaging", 7, '_');
  }

  lemma BenchMessagingIsHalves()
    ensures "perf_bench_sched_messaging" == "perf_bench" + "_sched_messaging"
  {}

  lemma BenchMessaging()
    ensures CleanText("perf_bench_sched_messaging")
  {
    BenchMessagingIsHalves();
    BenchMessagingHalves();
    JoinedTextIsClean("perf_bench", "_sched_messaging");
  }

  lemma VersionedIsClean(version: string)
    requires QuietTextFrom(version, 0, '_') && version != "" && version[0] == 'b'
    ensures CleanText("zig-scheduler/" + version)
  {
    assert QuietTextFrom("zig-scheduler/", 7, 'h');
    JoinedTextIsClean("zig-scheduler/", version);
  }

  lemma SchemaText()
    ensures CleanText(SCHEMA)
  {
    VersionIsQuiet();
    VersionedIsClean(PARSER_VERSION);
  }

  ghost predicate FixedTextsPass(pass: string -> bool) {
    && pass(SCHEMA) && pass(PARSER_NAME) && pass(PARSER_VERSION)
    && pass(RECORDED) && pass(DEFERRED) && pass(PARSED) && pass(RECORD_ONLY)
    && (forall family :: pass(FamilyText(family)) && pass(ToolFor(family)))
    && (forall u :: pass(UnitText(u)))
  }

  lemma FamilyIsClean(family: Family)
    ensures CleanText(FamilyText(family))
  {
    match family
    case Cyclictest | Fio => CyclictestTexts();
    case PerfBenchSchedMessaging => BenchMessaging();
    case Rtla | PerfSched => TraceTexts();
    case StressNg => StressTexts();
  }

  lemma ToolIsClean(family: Family)
    ensures CleanText(ToolFor(family))
  {
    match family
    case Cyclictest | Fio => CyclictestTexts();
    case PerfBenchSchedMessaging | PerfSched => PerfTexts();
    case Rtla => TraceTexts();
    case StressNg => StressTexts();
  }

  lemma UnitIsClean(u: Unit)
    ensures CleanText(UnitText(u))
  {
    match u
    case Count | Us | IopsUnit => CountUnits();
    case BytesPerSecond => ByteUnits();
    case Ns | Seconds => TimeUnits();
  }

  lemma FixedTextsAreClean()
    ensures FixedTextsPass(CleanText)
  {
    SchemaText();
    ParserName();
    VersionIsQuiet();
    FixedTextIsClean(PARSER_VERSION);
    RecordedTexts();
    RecordOnlyTexts();
    DeferredTexts();
    forall family ensures CleanText(FamilyText(family)) && CleanText(ToolFor(family)) {
      FamilyIsClean(family);
      ToolIsClean(family);
    }
    forall u ensures CleanText(UnitText(u)) { UnitIsClean(u); }
  }
}
