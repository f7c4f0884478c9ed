/** What two bundles must be for the comparison to pass, told by their manifests and files. */
module BundleRules {
  import opened Wrappers
  import opened JsonValue
  import opened BundleIndex
  import PathSafety

  // ----- claims -----

  /** A field that must be false, or true, wherever it stands. */
  predicate IsClaim(key: string, child: Json) {
    || (child != JBool(false) && (key == "host_mutation" || key == "release_eligible" || key == "production_capacity_claim"
        || key == "hard_thresholds_enforced"))
    || (child != JBool(true) && key == "record_only")
  }

  /** No field on any path makes a claim. */
  ghost predicate IsClaimFree(v: Json) {
    forall path: seq<Step> | At(v, path).Some? && At(v, path).value.JObject? ::
      forall k | k in At(v, path).value.fields :: !IsClaim(k, At(v, path).value.fields[k])
  }

  lemma CleanFieldIff(key: string, child: Json)
    ensures IsCleanField(key, child) <==> !IsClaim(key, child)
  {}

  lemma CleanNodeIff(v: Json)
    ensures IsCleanNode(v, false) <==> (v.JObject? ==> forall k | k in v.fields :: !IsClaim(k, v.fields[k]))
  {
    if v.JObject? {
      forall k | k in v.fields ensures IsCleanField(k, v.fields[k]) <==> !IsClaim(k, v.fields[k]) {
        CleanFieldIff(k, v.fields[k]);
      }
    }
  }

  lemma ClaimFreeIff(v: Json)
    ensures HasNoClaims(v) <==> IsClaimFree(v)
  {
    NoClaimsIffCleanEverywhere(v);
    if IsClaimFree(v) {
      forall path: seq<Step> | At(v, path).Some? ensures IsCleanNode(At(v, path).value, false && path == []) {
        CleanNodeIff(At(v, path).value);
      }
    }
    if HasNoClaims(v) {
      forall path: seq<Step> | At(v, path).Some? && At(v, path).value.JObject?
        ensures forall k | k in At(v, path).value.fields :: !IsClaim(k, At(v, path).value.fields[k])
      {
        assert IsCleanNode(At(v, path).value, false && path == []);
        CleanNodeIff(At(v, path).value);
      }
    }
  }

  // ----- references -----

  /** A JSON file, or each line of a JSON-lines file, parses and makes no claim. */
  ghost predicate IsHarmless(file: File) {
    && (file.suffix == DotJson ==> file.json.Some? && IsClaimFree(JObject(file.json.value)))
    && (file.suffix == DotJsonl ==>
          file.lines.Some? && forall i | 0 <= i < |file.lines.value| :: IsClaimFree(file.lines.value[i]))
  }

  lemma HarmlessIff(file: File)
    ensures IsCleanFile(file) <==> IsHarmless(file)
  {
    match file.suffix
    case DotJson => if file.json.Some? { ClaimFreeIff(JObject(file.json.value)); }
    case DotJsonl =>
      if file.lines.Some? {
        forall i | 0 <= i < |file.lines.value| ensures HasNoClaims(file.lines.value[i]) <==> IsClaimFree(file.lines.value[i]) {
          ClaimFreeIff(file.lines.value[i]);
        }
      }
    case OtherSuffix =>
  }

  /** The field holds this text, which is not empty. */
  predicate SaysText(row: Row, key: string, s: string) { Get(row, key) == Some(JStr(s)) && s != "" }

  /** The row refers to a file of the bundle by a relative path without "..", with its SHA-256. */
  ghost predicate IsRefTo(files: map<string, File>, row: Json, ref: Ref) {
    && row.JObject? && row.fields.Keys <= {"path", "sha256", "schema_role"}
    && SaysText(row.fields, "path", ref.path) && SaysText(row.fields, "sha256", ref.digest)
    && SaysText(row.fields, "schema_role", ref.role)
    && ref.path[0] != '/' && (forall i | 0 <= i <= |ref.path| :: !PathSafety.SegmentAt(ref.path, i))
    && ref.path in files && files[ref.path].digest == ref.digest && IsHarmless(files[ref.path])
  }

  lemma RefIff(files: map<string, File>, row: Json, ref: Ref)
    ensures ValidRef(files, row) == Some(ref) <==> IsRefTo(files, row, ref)
  {
    PathSafety.SafeIffNoDotDotSegment(ref.path);
    if ref.path in files { HarmlessIff(files[ref.path]); }
  }

  ghost predicate AreRefsTo(files: map<string, File>, rows: seq<Json>, refs: seq<Ref>) {
    |refs| == |rows| && forall i | 0 <= i < |rows| :: IsRefTo(files, rows[i], refs[i])
  }

  lemma ValidRefsSplit(files: map<string, File>, rows: seq<Json>, refs: seq<Ref>)
    requires rows != []
    ensures ValidRefs(files, rows) == Some(refs) <==>
      refs != [] && ValidRefs(files, rows[..|rows| - 1]) == Some(refs[..|refs| - 1])
      && ValidRef(files, rows[|rows| - 1]) == Some(refs[|refs| - 1])
  {
    if refs != [] { assert refs == refs[..|refs| - 1] + [refs[|refs| - 1]]; }
  }

  lemma {:induction false} RefsIff(files: map<string, File>, rows: seq<Json>, refs: seq<Ref>)
    ensures ValidRefs(files, rows) == Some(refs) <==> AreRefsTo(files, rows, refs)
    decreases |rows|
  {
    if rows != [] {
      ValidRefsSplit(files, rows, refs);
      if refs != [] {
        RefsIff(files, rows[..|rows| - 1], refs[..|refs| - 1]);
        RefIff(files, rows[|rows| - 1], refs[|refs| - 1]);
        RefsSplit(files, rows, refs);
      }
    }
  }

  lemma RefsSplit(files: map<string, File>, rows: seq<Json>, refs: seq<Ref>)
    requires rows != [] && refs != []
    ensures AreRefsTo(files, rows, refs) <==>
      AreRefsTo(files, rows[..|rows| - 1], refs[..|refs| - 1]) && IsRefTo(files, rows[|rows| - 1], refs[|refs| - 1])
  {
    if AreRefsTo(files, rows[..|rows| - 1], refs[..|refs| - 1]) && IsRefTo(files, rows[|rows| - 1], refs[|refs| - 1]) {
      forall i | 0 <= i < |rows| ensures IsRefTo(files, rows[i], refs[i]) {
        assert i < |rows| - 1 ==> rows[..|rows| - 1][i] == rows[i] && refs[..|refs| - 1][i] == refs[i];
      }
    }
    if AreRefsTo(files, rows, refs) {
      var front, frontRefs := rows[..|rows| - 1], refs[..|refs| - 1];
      assert forall i | 0 <= i < |front| :: front[i] == rows[i] && frontRefs[i] == refs[i];
    }
  }

  /** The rows of a manifest that refer to files: five fields, the artifacts, and the benchmarks
      if they are listed. */
  predicate AreRefRows(manifest: Row, rows: seq<Json>) {
    && "artifacts" in manifest && manifest["artifacts"].JList?
    && |rows| >= 5 && rows[5..] == manifest["artifacts"].items + Benchmarks(manifest)
    && Names(manifest, "matrix_manifest", rows[0]) && Names(manifest, "daemon_events", rows[1])
    && Names(manifest, "bpf_metadata_or_skip", rows[2]) && Names(manifest, "runner_substrate", rows[3])
    && Names(manifest, "runner_cleanliness", rows[4])
  }

  /** The field, or null where there is none, which no reference is. */
  predicate Names(manifest: Row, field: string, row: Json) {
    row == if field in manifest then manifest[field] else JNull
  }

  function Benchmarks(manifest: Row): seq<Json> {
    if "benchmark_provenance" in manifest && manifest["benchmark_provenance"].JList?
    then manifest["benchmark_provenance"].items else []
  }

  lemma SingleFields(manifest: Row, rows: seq<Json>)
    requires RefRows(manifest) == Some(rows)
    ensures |rows| >= 5
    ensures Names(manifest, "matrix_manifest", rows[0]) && Names(manifest, "daemon_events", rows[1])
    ensures Names(manifest, "bpf_metadata_or_skip", rows[2]) && Names(manifest, "runner_substrate", rows[3])
    ensures Names(manifest, "runner_cleanliness", rows[4])
    ensures "artifacts" in manifest && manifest["artifacts"].JList?
    ensures rows[5..] == manifest["artifacts"].items + Benchmarks(manifest)
  {}

  lemma SameRows(all: seq<Json>, rows: seq<Json>)
    requires |all| >= 5 && |rows| >= 5 && all[5..] == rows[5..]
    requires all[0] == rows[0] && all[1] == rows[1] && all[2] == rows[2] && all[3] == rows[3] && all[4] == rows[4]
    ensures all == rows
  {
    assert all == all[..5] + all[5..] && rows == rows[..5] + rows[5..];
    assert all[..5] == rows[..5];
  }

  lemma RefRowsIff(manifest: Row, rows: seq<Json>)
    ensures RefRows(manifest) == Some(rows) <==> AreRefRows(manifest, rows)
  {
    if RefRows(manifest).Some? {
      var all := RefRows(manifest).value;
      SingleFields(manifest, all);
      if AreRefRows(manifest, rows) { SameRows(all, rows); }
    }
  }

  // ----- roles -----

  predicate HasRole(refs: seq<Ref>, role: string) {
    exists i | 0 <= i < |refs| :: refs[i].role == role
  }

  /** Reference `k` is the only one of its role. */
  predicate IsOnly(refs: seq<Ref>, role: string, k: nat) {
    k < |refs| && refs[k].role == role && forall i | 0 <= i < |refs| && i != k :: refs[i].role != role
  }

  lemma {:induction false} RolesIff(refs: seq<Ref>, role: string)
    ensures role in RolesOf(refs) <==> HasRole(refs, role)
    decreases |refs|
  {
    if refs != [] {
      var front, n := refs[..|refs| - 1], |refs| - 1;
      RolesIff(front, role);
      if HasRole(front, role) { var i :| 0 <= i < n && front[i].role == role; assert refs[i].role == role; }
      if HasRole(refs, role) && refs[n].role != role {
        var i :| 0 <= i < |refs| && refs[i].role == role;
        assert front[i].role == role;
      }
    }
  }

  lemma {:induction false} OnlyIsStored(refs: seq<Ref>, role: string, k: nat)
    requires IsOnly(refs, role, k)
    ensures Stored(refs, role) == [refs[k]]
    decreases |refs|
  {
    var front, n := refs[..|refs| - 1], |refs| - 1;
    if k < n {
      assert forall i | 0 <= i < n :: front[i] == refs[i];
      OnlyIsStored(front, role, k);
    } else {
      NoneIsStored(front, role);
    }
  }

  lemma NoneIsStored(refs: seq<Ref>, role: string)
    requires !HasRole(refs, role)
    ensures Stored(refs, role) == []
  {
    AbsentRoleStoresNothing(refs, role);
    RolesIff(refs, role);
  }

  lemma {:induction false} StoredIsOnly(refs: seq<Ref>, role: string) returns (k: nat)
    requires |Stored(refs, role)| == 1
    ensures IsOnly(refs, role, k)
    decreases |refs|
  {
    var front, n := refs[..|refs| - 1], |refs| - 1;
    assert forall i | 0 <= i < n :: front[i] == refs[i];
    if refs[n].role == role {
      k := n;
      AbsentRoleStoresNothing(front, role);
      RolesIff(front, role);
      forall i | 0 <= i < n ensures refs[i].role != role { assert front[i].role == role ==> HasRole(front, role); }
    } else {
      k := StoredIsOnly(front, role);
    }
  }

  /** Looking a role up for its only reference. */
  lemma SingleIff(refs: seq<Ref>, role: string)
    ensures Single(RefsByRole(refs), role).Some? <==> exists k: nat :: IsOnly(refs, role, k)
    ensures forall k: nat | IsOnly(refs, role, k) :: Single(RefsByRole(refs), role) == Some(refs[k])
  {
    Default(refs, role);
    if |Stored(refs, role)| == 1 { var k := StoredIsOnly(refs, role); }
    forall k: nat | IsOnly(refs, role, k) ensures Stored(refs, role) == [refs[k]] { OnlyIsStored(refs, role, k); }
  }

  predicate HasMatrixRoles(refs: seq<Ref>) {
    HasRole(refs, "matrix-manifest") && HasRole(refs, "matrix-row") && HasRole(refs, "rollback-proof")
  }

  predicate HasProofRoles(refs: seq<Ref>) {
    HasRole(refs, "cleanup-proof") && HasRole(refs, "host-refusal-proof") && HasRole(refs, "privacy-scan")
  }

  predicate HasRunnerRoles(refs: seq<Ref>) {
    && HasRole(refs, "runner-substrate-proof") && HasRole(refs, "runner-cleanliness-proof")
    && HasRole(refs, "protected-environment-review")
  }

  /** All nine roles, and a BPF role. */
  predicate HasAllRoles(refs: seq<Ref>) {
    && HasMatrixRoles(refs) && HasProofRoles(refs) && HasRunnerRoles(refs)
    && (HasRole(refs, "bpf-metadata") || HasRole(refs, "bpf-skip-json"))
  }

  lemma RolesSuffice(roles: set<string>)
    ensures REQUIRED_ROLES <= roles <==>
      && "matrix-manifest" in roles && "matrix-row" in roles && "rollback-proof" in roles
      && "cleanup-proof" in roles && "host-refusal-proof" in roles && "privacy-scan" in roles
      && "runner-substrate-proof" in roles && "runner-cleanliness-proof" in roles && "protected-environment-review" in roles
    ensures BPF_ROLES * roles != {} <==> "bpf-metadata" in roles || "bpf-skip-json" in roles
  {
    if "bpf-metadata" in roles { assert "bpf-metadata" in BPF_ROLES * roles; }
    if "bpf-skip-json" in roles { assert "bpf-skip-json" in BPF_ROLES * roles; }
  }

  lemma HasRolesIff(refs: seq<Ref>)
    ensures HasRoles(RoleCounts(refs)) <==> HasAllRoles(refs)
  {
    RolesSuffice(RolesOf(refs));
    forall role ensures role in RolesOf(refs) <==> HasRole(refs, role) { RolesIff(refs, role); }
    assert RoleCounts(refs).Keys == RolesOf(refs);
  }

  // ----- texts in files -----

  /** The text at a path, if there is one and it is not empty. */
  function TextAt(v: Json, path: seq<Step>): Option<string> {
    match At(v, path) case Some(JStr(s)) => if s == "" then None else Some(s) case _ => None
  }

  function KeyPath(keys: seq<string>): seq<Step> {
    seq(|keys|, i requires 0 <= i < |keys| => Key(keys[i]))
  }

  lemma {:induction false} NestedIsAt(v: Json, keys: seq<string>)
    ensures NestedText(Some(v), keys) == TextAt(v, KeyPath(keys))
    decreases |keys|
  {
    if keys != [] {
      assert KeyPath(keys)[1..] == KeyPath(keys[1..]);
      if v.JObject? && keys[0] in v.fields { NestedIsAt(v.fields[keys[0]], keys[1..]); }
      if v.JObject? && keys[0] !in v.fields { NothingNested(keys[1..]); }
    }
  }

  lemma NothingNested(keys: seq<string>)
    ensures NestedText(None, keys).None?
  {}

  /** The text at a path of a JSON file; other files have none. */
  function FileText(file: File, path: seq<Step>): Option<string> {
    if file.suffix == DotJson && file.json.Some? then TextAt(JObject(file.json.value), path) else None
  }

  lemma FileTextIs(file: File, keys: seq<string>, fallback: string)
    ensures FirstJsonText(file, keys, fallback) == FileText(file, KeyPath(keys)).GetOr(fallback)
  {
    if file.json.Some? { NestedIsAt(JObject(file.json.value), keys); }
  }

  /** The first of five texts, or the digest. */
  function BpfId(file: File, digest: string): string {
    var a, b, c := FileText(file, [Key("bpf_object_sha256")]), FileText(file, [Key("object_sha256")]), FileText(file, [Key("object_hash")]);
    var d, e := FileText(file, [Key("bpf"), Key("object_sha256")]), FileText(file, [Key("metadata"), Key("object_sha256")]);
    if a.Some? then a.value else if b.Some? then b.value else if c.Some? then c.value
    else if d.Some? then d.value else if e.Some? then e.value else digest
  }

  lemma FirstFoundStep(v: Json, keys: seq<string>, more: seq<seq<string>>, fallback: string)
    ensures FirstFound(v, [keys] + more, fallback) == TextAt(v, KeyPath(keys)).GetOr(FirstFound(v, more, fallback))
  {
    NestedIsAt(v, keys);
    assert ([keys] + more)[1..] == more;
  }

  lemma BpfIdIs(file: File, digest: string)
    ensures BpfIdentity(file, digest) == BpfId(file, digest)
  {
    if file.suffix == DotJson && file.json.Some? {
      var v, p := JObject(file.json.value), BPF_KEYS;
      FirstFoundStep(v, p[4], [], digest);
      FirstFoundStep(v, p[3], [p[4]], digest);
      FirstFoundStep(v, p[2], [p[3], p[4]], digest);
      FirstFoundStep(v, p[1], [p[2], p[3], p[4]], digest);
      FirstFoundStep(v, p[0], [p[1], p[2], p[3], p[4]], digest);
      assert KeyPath(p[0]) == [Key("bpf_object_sha256")] && KeyPath(p[1]) == [Key("object_sha256")] && KeyPath(p[2]) == [Key("object_hash")];
      assert KeyPath(p[3]) == [Key("bpf"), Key("object_sha256")] && KeyPath(p[4]) == [Key("metadata"), Key("object_sha256")];
    }
  }

  // ----- scenarios and benchmarks -----

  predicate IsScenario(row: Json, s: string) { row.JObject? && SaysText(row.fields, "scenario_id", s) }

  /** The rows name these scenarios, one text each and none twice. */
  predicate NameScenarios(rows: seq<Json>, names: seq<string>) {
    && |names| == |rows| && (forall i | 0 <= i < |rows| :: IsScenario(rows[i], names[i]))
    && (forall i, j | 0 <= i < j < |names| :: names[i] != names[j])
  }

  /** The scenarios of a matrix without claims, as many as it counts, if it counts them. */
  ghost predicate AreScenariosOf(matrix: Row, scenarios: set<string>) {
    && IsClaimFree(JObject(matrix)) && "rows" in matrix && matrix["rows"].JList?
    && (forall n | AsInt(Get(matrix, "row_count")) == Some(n) :: n == |matrix["rows"].items|)
    && exists names :: NameScenarios(matrix["rows"].items, names) && scenarios == set s | s in names
  }

  lemma ScenarioIff(row: Json, s: string)
    ensures ScenarioOf(row) == Some(s) <==> IsScenario(row, s)
  {}

  lemma NamesAre(rows: seq<Json>, names: seq<string>)
    requires NameScenarios(rows, names)
    ensures AreScenarios(rows) && ScenarioSet(rows) == set s | s in names
  {
    forall i | 0 <= i < |rows| ensures ScenarioOf(rows[i]) == Some(names[i]) { ScenarioIff(rows[i], names[i]); }
    forall s | s in names ensures s in ScenarioSet(rows) {
      var i :| 0 <= i < |names| && names[i] == s;
      assert ScenarioOf(rows[i]) == Some(s);
    }
  }

  lemma ScenariosHaveNames(rows: seq<Json>) returns (names: seq<string>)
    requires AreScenarios(rows)
    ensures NameScenarios(rows, names)
  {
    names := seq(|rows|, i requires 0 <= i < |rows| => ScenarioOf(rows[i]).value);
    forall i | 0 <= i < |rows| ensures IsScenario(rows[i], names[i]) { ScenarioIff(rows[i], names[i]); }
    forall i, j | 0 <= i < j < |names| ensures names[i] != names[j] { assert ScenarioOf(rows[i]) != ScenarioOf(rows[j]); }
  }

  lemma ScenariosIff(matrix: Row, scenarios: set<string>)
    ensures RowsOf(matrix) == Some(scenarios) <==> AreScenariosOf(matrix, scenarios)
  {
    ClaimFreeIff(JObject(matrix));
    if "rows" in matrix && matrix["rows"].JList? {
      var rows := matrix["rows"].items;
      if AreScenarios(rows) {
        var names := ScenariosHaveNames(rows);
        NamesAre(rows, names);
      }
      if names :| NameScenarios(rows, names) && scenarios == set s | s in names { NamesAre(rows, names); }
    }
  }

  /** The benchmarks: how many are listed, or the status given instead. */
  predicate IsBenchmarkState(manifest: Row, state: (string, nat)) {
    match Get(manifest, "benchmark_provenance")
    case Some(JList(rows)) => state == ("refs", |rows|)
    case Some(JObject(fields)) => SaysText(fields, "status", state.0) && state.1 == 0
    case _ => false
  }

  lemma BenchmarkStateIff(manifest: Row, state: (string, nat))
    ensures BenchmarkState(manifest) == Some(state) <==> IsBenchmarkState(manifest, state)
  {}

  // ----- what a bundle is compared by -----

  /** The references, the places of the four files that are read, and what they say. */
  datatype Facts = Facts(
    refs: seq<Ref>, matrix: nat, runner: nat, review: nat, bpf: nat, scenarios: set<string>, supported: string,
    benchmark: (string, nat))

  ghost predicate HasRefs(b: Bundle, refs: seq<Ref>) {
    && IsClaimFree(JObject(b.manifest))
    && exists rows :: AreRefRows(b.manifest, rows) && AreRefsTo(b.files, rows, refs)
  }

  /** The four files, each the only one of its role. */
  predicate HasFiles(refs: seq<Ref>, f: Facts) {
    && HasAllRoles(refs)
    && IsOnly(refs, "matrix-manifest", f.matrix) && IsOnly(refs, "runner-substrate-proof", f.runner)
    && IsOnly(refs, "protected-environment-review", f.review)
    && IsOnly(refs, if HasRole(refs, "bpf-metadata") then "bpf-metadata" else "bpf-skip-json", f.bpf)
  }

  function FileAt(b: Bundle, refs: seq<Ref>, k: nat): File
    requires k < |refs| && refs[k].path in b.files
  {
    b.files[refs[k].path]
  }

  /** The bundle is in order, and these are its facts. */
  ghost predicate IsInOrder(b: Bundle, f: Facts) {
    && HasRefs(b, f.refs) && HasFiles(f.refs, f)
    && (forall i | 0 <= i < |f.refs| :: f.refs[i].path in b.files)
    && SaysText(b.manifest, "supported_tuple", f.supported)
    && (forall s | FileText(FileAt(b, f.refs, f.runner), [Key("kernel_tuple"), Key("supported_tuple")]) == Some(s) :: s == f.supported)
    && FileAt(b, f.refs, f.matrix).json.Some? && AreScenariosOf(FileAt(b, f.refs, f.matrix).json.value, f.scenarios)
    && IsBenchmarkState(b.manifest, f.benchmark)
  }

  lemma RefsAreFiles(b: Bundle, refs: seq<Ref>)
    requires HasRefs(b, refs)
    ensures forall i | 0 <= i < |refs| :: refs[i].path in b.files
  {
    var rows :| AreRefRows(b.manifest, rows) && AreRefsTo(b.files, rows, refs);
    forall i | 0 <= i < |refs| ensures refs[i].path in b.files { assert IsRefTo(b.files, rows[i], refs[i]); }
  }

  lemma RefsOfIff(b: Bundle, refs: seq<Ref>)
    ensures RefsOf(b) == Some(refs) <==> HasRefs(b, refs)
  {
    ClaimFreeIff(JObject(b.manifest));
    if RefsOf(b) == Some(refs) {
      var rows := RefRows(b.manifest).value;
      RefRowsIff(b.manifest, rows);
      RefsIff(b.files, rows, refs);
    }
    if HasRefs(b, refs) {
      var rows :| AreRefRows(b.manifest, rows) && AreRefsTo(b.files, rows, refs);
      RefRowsIff(b.manifest, rows);
      RefsIff(b.files, rows, refs);
    }
  }

  function Sha(review: File): string { FileText(review, [Key("head_sha")]).GetOr("unavailable") }

  /** The index of a bundle in order. */
  ghost function IndexFrom(b: Bundle, f: Facts): Index
    requires IsInOrder(b, f)
  {
    Index.Index(
      RoleCounts(f.refs), RefsByRole(f.refs), f.scenarios, f.supported, Sha(FileAt(b, f.refs, f.review)),
      BpfId(FileAt(b, f.refs, f.bpf), f.refs[f.bpf].digest), f.benchmark)
  }

  lemma TupleAgreesIff(runner: File, supported: string)
    ensures FirstJsonText(runner, ["kernel_tuple", "supported_tuple"], supported) == supported <==>
      forall s | FileText(runner, [Key("kernel_tuple"), Key("supported_tuple")]) == Some(s) :: s == supported
  {
    var keys := ["kernel_tuple", "supported_tuple"];
    FileTextIs(runner, keys, supported);
    assert KeyPath(keys) == [Key("kernel_tuple"), Key("supported_tuple")];
  }

  lemma ShaIs(review: File)
    ensures FirstJsonText(review, ["head_sha"], "unavailable") == Sha(review)
  {
    var keys, fallback := ["head_sha"], "unavailable";
    FileTextIs(review, keys, fallback);
    assert KeyPath(keys) == [Key("head_sha")];
  }

  /** What is read from the four files. */
  ghost predicate Reads(b: Bundle, matrix: File, runner: File, f: Facts) {
    && SaysText(b.manifest, "supported_tuple", f.supported) && IsBenchmarkState(b.manifest, f.benchmark)
    && (forall s | FileText(runner, [Key("kernel_tuple"), Key("supported_tuple")]) == Some(s) :: s == f.supported)
    && matrix.json.Some? && AreScenariosOf(matrix.json.value, f.scenarios)
  }

  lemma FromFilesIff(
      b: Bundle, roles: map<string, nat>, refsByRole: map<string, seq<Ref>>, matrix: File, runner: File, review: File,
      bpfId: string, f: Facts)
    ensures
      FromFiles(b, roles, refsByRole, matrix, runner, review, bpfId)
        == Some(Index.Index(roles, refsByRole, f.scenarios, f.supported, Sha(review), bpfId, f.benchmark))
      <==> Reads(b, matrix, runner, f)
  {
    TupleAgreesIff(runner, f.supported);
    ShaIs(review);
    BenchmarkStateIff(b.manifest, f.benchmark);
    if matrix.json.Some? { ScenariosIff(matrix.json.value, f.scenarios); }
  }

  lemma SinglesAre(refs: seq<Ref>, f: Facts)
    requires HasFiles(refs, f)
    ensures
      var table := RefsByRole(refs);
      && Single(table, "matrix-manifest") == Some(refs[f.matrix]) && Single(table, "runner-substrate-proof") == Some(refs[f.runner])
      && Single(table, "protected-environment-review") == Some(refs[f.review])
      && Single(table, if "bpf-metadata" in table then "bpf-metadata" else "bpf-skip-json") == Some(refs[f.bpf])
  {
    SingleIff(refs, "matrix-manifest");
    SingleIff(refs, "runner-substrate-proof");
    SingleIff(refs, "protected-environment-review");
    SingleIff(refs, "bpf-metadata");
    SingleIff(refs, "bpf-skip-json");
    RolesIff(refs, "bpf-metadata");
  }

  lemma SinglesHaveFiles(refs: seq<Ref>) returns (matrix: nat, runner: nat, review: nat, bpf: nat)
    requires HasRoles(RoleCounts(refs))
    requires Single(RefsByRole(refs), "matrix-manifest").Some? && Single(RefsByRole(refs), "runner-substrate-proof").Some?
    requires Single(RefsByRole(refs), "protected-environment-review").Some?
    requires
      var table := RefsByRole(refs);
      Single(table, if "bpf-metadata" in table then "bpf-metadata" else "bpf-skip-json").Some?
    ensures HasAllRoles(refs) && IsOnly(refs, "matrix-manifest", matrix) && IsOnly(refs, "runner-substrate-proof", runner)
    ensures IsOnly(refs, "protected-environment-review", review)
    ensures IsOnly(refs, if HasRole(refs, "bpf-metadata") then "bpf-metadata" else "bpf-skip-json", bpf)
  {
    HasRolesIff(refs);
    SingleIff(refs, "matrix-manifest");
    SingleIff(refs, "runner-substrate-proof");
    SingleIff(refs, "protected-environment-review");
    SingleIff(refs, "bpf-metadata");
    SingleIff(refs, "bpf-skip-json");
    RolesIff(refs, "bpf-metadata");
    matrix :| IsOnly(refs, "matrix-manifest", matrix);
    runner :| IsOnly(refs, "runner-substrate-proof", runner);
    review :| IsOnly(refs, "protected-environment-review", review);
    bpf :| IsOnly(refs, if HasRole(refs, "bpf-metadata") then "bpf-metadata" else "bpf-skip-json", bpf);
  }

  /** The tables are read at the four files. */
  function IndexAt(b: Bundle, refs: seq<Ref>, f: Facts): Option<Index>
    requires HasFiles(refs, f) && forall i | 0 <= i < |refs| :: refs[i].path in b.files
  {
    FromFiles(
      b, RoleCounts(refs), RefsByRole(refs), FileAt(b, refs, f.matrix), FileAt(b, refs, f.runner), FileAt(b, refs, f.review),
      BpfId(FileAt(b, refs, f.bpf), refs[f.bpf].digest))
  }

  lemma IndexedIsAt(b: Bundle, refs: seq<Ref>, f: Facts)
    requires HasFiles(refs, f) && forall i | 0 <= i < |refs| :: refs[i].path in b.files
    ensures Indexed(b, RoleCounts(refs), RefsByRole(refs)) == IndexAt(b, refs, f)
  {
    HasRolesIff(refs);
    SinglesAre(refs, f);
    BpfIdIs(FileAt(b, refs, f.bpf), refs[f.bpf].digest);
  }

  lemma IndexOfIs(b: Bundle, refs: seq<Ref>, f: Facts)
    requires HasRefs(b, refs) && HasFiles(refs, f) && forall i | 0 <= i < |refs| :: refs[i].path in b.files
    ensures IndexOf(b) == IndexAt(b, refs, f)
  {
    RefsOfIff(b, refs);
    IndexedIsAt(b, refs, f);
  }

  /** A bundle in order has that index. */
  lemma OrderGivesIndex(b: Bundle, f: Facts)
    requires IsInOrder(b, f)
    ensures IndexOf(b) == Some(IndexFrom(b, f))
  {
    var refs := f.refs;
    IndexOfIs(b, refs, f);
    FromFilesIff(
      b, RoleCounts(refs), RefsByRole(refs), FileAt(b, refs, f.matrix), FileAt(b, refs, f.runner), FileAt(b, refs, f.review),
      BpfId(FileAt(b, refs, f.bpf), refs[f.bpf].digest), f);
  }

  /** What an index was read from. */
  lemma IndexAtReads(b: Bundle, refs: seq<Ref>, f: Facts)
    requires HasFiles(refs, f) && (forall i | 0 <= i < |refs| :: refs[i].path in b.files) && IndexAt(b, refs, f).Some?
    requires
      var index := IndexAt(b, refs, f).value;
      index.matrixRows == f.scenarios && index.supportedTuple == f.supported && index.benchmark == f.benchmark
    ensures Reads(b, FileAt(b, refs, f.matrix), FileAt(b, refs, f.runner), f)
  {
    IndexFields(b, refs, f);
    FromFilesIff(
      b, RoleCounts(refs), RefsByRole(refs), FileAt(b, refs, f.matrix), FileAt(b, refs, f.runner), FileAt(b, refs, f.review),
      BpfId(FileAt(b, refs, f.bpf), refs[f.bpf].digest), f);
  }

  lemma IndexedNeeds(b: Bundle, roles: map<string, nat>, table: map<string, seq<Ref>>)
    requires Indexed(b, roles, table).Some?
    ensures HasRoles(roles)
    ensures Single(table, "matrix-manifest").Some? && Single(table, "runner-substrate-proof").Some?
    ensures Single(table, "protected-environment-review").Some?
    ensures Single(table, if "bpf-metadata" in table then "bpf-metadata" else "bpf-skip-json").Some?
  {}

  lemma IndexHasFiles(b: Bundle) returns (f: Facts)
    requires IndexOf(b).Some?
    ensures HasRefs(b, f.refs) && HasFiles(f.refs, f) && forall i | 0 <= i < |f.refs| :: f.refs[i].path in b.files
    ensures
      var index := IndexOf(b).value;
      index.matrixRows == f.scenarios && index.supportedTuple == f.supported && index.benchmark == f.benchmark
  {
    var refs := RefsOf(b).value;
    var index := IndexOf(b).value;
    RefsOfIff(b, refs);
    RefsAreFiles(b, refs);
    IndexedNeeds(b, RoleCounts(refs), RefsByRole(refs));
    var matrix, runner, review, bpf := SinglesHaveFiles(refs);
    f := Facts(refs, matrix, runner, review, bpf, index.matrixRows, index.supportedTuple, index.benchmark);
  }

  /** A bundle that can be indexed is in order. */
  lemma IndexedIsInOrder(b: Bundle) returns (f: Facts)
    requires IndexOf(b).Some?
    ensures IsInOrder(b, f)
  {
    f := IndexHasFiles(b);
    IndexOfIs(b, f.refs, f);
    IndexAtReads(b, f.refs, f);
  }

  lemma IndexFields(b: Bundle, refs: seq<Ref>, f: Facts)
    requires HasFiles(refs, f) && (forall i | 0 <= i < |refs| :: refs[i].path in b.files) && IndexAt(b, refs, f).Some?
    ensures
      var index := IndexAt(b, refs, f).value;
      && index.roles == RoleCounts(refs) && index.refsByRole == RefsByRole(refs)
      && index.gitSha == Sha(FileAt(b, refs, f.review))
      && index.bpfIdentity == BpfId(FileAt(b, refs, f.bpf), refs[f.bpf].digest)
  {
    ShaIs(FileAt(b, refs, f.review));
  }

  // ----- agreement -----

  function Roles(refs: seq<Ref>): multiset<string> {
    multiset(seq(|refs|, i requires 0 <= i < |refs| => refs[i].role))
  }

  lemma {:induction false} RolesCount(refs: seq<Ref>, role: string)
    ensures Roles(refs)[role] == |Stored(refs, role)|
    decreases |refs|
  {
    if refs != [] {
      var front, last := refs[..|refs| - 1], refs[|refs| - 1];
      RolesCount(front, role);
      var roles := seq(|refs|, i requires 0 <= i < |refs| => refs[i].role);
      assert roles == seq(|front|, i requires 0 <= i < |front| => front[i].role) + [last.role];
    }
  }

  lemma SameCountsIff(a: seq<Ref>, c: seq<Ref>)
    ensures RoleCounts(a) == RoleCounts(c) <==> Roles(a) == Roles(c)
  {
    forall role
      ensures Roles(a)[role] == (if role in RoleCounts(a) then RoleCounts(a)[role] else 0)
      ensures Roles(c)[role] == (if role in RoleCounts(c) then RoleCounts(c)[role] else 0)
      ensures (role in RoleCounts(a) <==> Roles(a)[role] > 0) && (role in RoleCounts(c) <==> Roles(c)[role] > 0)
    {
      RolesCount(a, role);
      RolesCount(c, role);
      Default(a, role);
      Default(c, role);
      AbsentRoleStoresNothing(a, role);
      AbsentRoleStoresNothing(c, role);
    }
    if Roles(a) == Roles(c) {
      assert RoleCounts(a).Keys == RoleCounts(c).Keys;
      forall role | role in RoleCounts(a) ensures RoleCounts(a)[role] == RoleCounts(c)[role] {
        assert Roles(a)[role] == Roles(c)[role];
      }
    }
    if RoleCounts(a) == RoleCounts(c) {
      forall role ensures Roles(a)[role] == Roles(c)[role] {
        assert role in RoleCounts(a) <==> role in RoleCounts(c);
      }
    }
  }

  /** The bundles have as many references of each role, the same scenarios and benchmarks, and the
      same tuple, commit and BPF object, unless a change of these is expected. */
  ghost predicate Agree(left: Bundle, l: Facts, right: Bundle, r: Facts, options: Options)
    requires IsInOrder(left, l) && IsInOrder(right, r)
  {
    && Roles(l.refs) == Roles(r.refs) && l.scenarios == r.scenarios && l.benchmark == r.benchmark
    && (l.supported == r.supported || options.tupleChange)
    && (Sha(FileAt(left, l.refs, l.review)) == Sha(FileAt(right, r.refs, r.review)) || options.gitShaChange)
    && (BpfId(FileAt(left, l.refs, l.bpf), l.refs[l.bpf].digest) == BpfId(FileAt(right, r.refs, r.bpf), r.refs[r.bpf].digest)
        || options.bpfChange)
  }

  lemma SameIff(left: Bundle, l: Facts, right: Bundle, r: Facts, options: Options)
    requires IsInOrder(left, l) && IsInOrder(right, r)
    ensures Same(IndexFrom(left, l), IndexFrom(right, r), options) <==> Agree(left, l, right, r, options)
  {
    SameCountsIff(l.refs, r.refs);
  }

  /** Exactly when the comparison passes. */
  lemma ComparesIff(left: Bundle, right: Bundle, options: Options)
    ensures Compares(left, right, options) <==>
      exists l, r :: IsInOrder(left, l) && IsInOrder(right, r) && Agree(left, l, right, r, options)
  {
    if Compares(left, right, options) {
      var l := IndexedIsInOrder(left);
      var r := IndexedIsInOrder(right);
      AgreeIffCompares(left, l, right, r, options);
    }
    if l, r :| IsInOrder(left, l) && IsInOrder(right, r) && Agree(left, l, right, r, options) {
      AgreeIffCompares(left, l, right, r, options);
    }
  }

  lemma AgreeIffCompares(left: Bundle, l: Facts, right: Bundle, r: Facts, options: Options)
    requires IsInOrder(left, l) && IsInOrder(right, r)
    ensures Compares(left, right, options) <==> Agree(left, l, right, r, options)
  {
    OrderGivesIndex(left, l);
    OrderGivesIndex(right, r);
    SameIff(left, l, right, r, options);
  }
}
