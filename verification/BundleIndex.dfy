/** Indexing two evidence bundles and comparing them (qa/evidence_bundle_compare_check.py). */
module BundleIndex {
  import opened Wrappers
  import opened JsonValue
  import PathSafety

  // ----- a bundle -----

  datatype Suffix = DotJson | DotJsonl | OtherSuffix

  /** A file: its SHA-256, what `load_json` yields (`None` when it raises), and its non-blank
      lines as JSON (`None` when one is not). */
  datatype File = File(suffix: Suffix, digest: string, json: Option<Row>, lines: Option<seq<Json>>)

  /** A manifest and the files below its root, by relative path. */
  datatype Bundle = Bundle(manifest: Row, files: map<string, File>)

  datatype Ref = Ref(role: string, path: string, digest: string)

  datatype Index = Index(
    roles: map<string, nat>, refsByRole: map<string, seq<Ref>>, matrixRows: set<string>, supportedTuple: string,
    gitSha: string, bpfIdentity: string, benchmark: (string, nat))

  /** `text`: a text that is not empty. */
  function Text(v: Option<Json>): Option<string> {
    match v case Some(JStr(s)) => if s == "" then None else Some(s) case _ => None
  }

  // ----- claims -----

  predicate IsCleanField(key: string, child: Json) {
    && (key in {"host_mutation", "release_eligible", "production_capacity_claim", "hard_thresholds_enforced"} ==>
          child == JBool(false))
    && (key == "record_only" ==> child == JBool(true))
  }

  /** `reject_release_claims` does not raise. */
  predicate HasNoClaims(v: Json) {
    match v
    case JObject(fields) => forall k | k in fields :: IsCleanField(k, fields[k]) && HasNoClaims(fields[k])
    case JList(items) => forall i | 0 <= i < |items| :: HasNoClaims(items[i])
    case _ => true
  }

  predicate IsCleanNode(v: Json, exempt: bool) {
    v.JObject? ==> forall k | k in v.fields :: IsCleanField(k, v.fields[k])
  }

  /** No claim is accepted at any depth, and nothing else is rejected. */
  lemma {:induction false} NoClaimsIffCleanEverywhere(v: Json)
    ensures HasNoClaims(v) <==> Everywhere(v, IsCleanNode, false)
    decreases v
  {
    match v
    case JObject(fields) =>
      forall k | k in fields ensures HasNoClaims(fields[k]) <==> Everywhere(fields[k], IsCleanNode, false) {
        NoClaimsIffCleanEverywhere(fields[k]);
      }
      EverywhereIsRootAndBelow(v, IsCleanNode, false);
    case JList(items) =>
      forall i | 0 <= i < |items| ensures HasNoClaims(items[i]) <==> Everywhere(items[i], IsCleanNode, false) {
        NoClaimsIffCleanEverywhere(items[i]);
      }
      EverywhereIsRootAndBelow(v, IsCleanNode, false);
    case _ => EverywhereIsRootAndBelow(v, IsCleanNode, false);
  }

  predicate IsCleanFile(file: File) {
    match file.suffix
    case DotJson => file.json.Some? && HasNoClaims(JObject(file.json.value))
    case DotJsonl => file.lines.Some? && forall i | 0 <= i < |file.lines.value| :: HasNoClaims(file.lines.value[i])
    case OtherSuffix => true
  }

  // ----- references -----

  /** `validate_ref` and the scan of the file it names. */
  function ValidRef(files: map<string, File>, row: Json): Option<Ref> {
    if !row.JObject? || !(row.fields.Keys <= {"path", "sha256", "schema_role"}) then None
    else
      match (Text(Get(row.fields, "schema_role")), Text(Get(row.fields, "path")), Text(Get(row.fields, "sha256")))
      case (Some(role), Some(path), Some(digest)) =>
        if PathSafety.IsSafePath(path) && path in files && files[path].digest == digest && IsCleanFile(files[path])
        then Some(Ref(role, path, digest)) else None
      case _ => None
  }

  function ValidRefs(files: map<string, File>, rows: seq<Json>): Option<seq<Ref>> {
    if rows == [] then Some([])
    else
      match (ValidRefs(files, rows[..|rows| - 1]), ValidRef(files, rows[|rows| - 1]))
      case (Some(front), Some(last)) => Some(front + [last])
      case _ => None
  }

  lemma {:induction false} InvalidPrefix(files: map<string, File>, rows: seq<Json>, n: nat)
    requires n <= |rows| && ValidRefs(files, rows[..n]).None?
    ensures ValidRefs(files, rows).None?
    decreases |rows|
  {
    if n < |rows| {
      assert rows[..|rows| - 1][..n] == rows[..n];
      InvalidPrefix(files, rows[..|rows| - 1], n);
    } else {
      assert rows[..n] == rows;
    }
  }

  const SINGLE_FIELDS := ["matrix_manifest", "daemon_events", "bpf_metadata_or_skip", "runner_substrate", "runner_cleanliness"]

  function Optional(row: Row, field: string): Json { if field in row then row[field] else JNull }

  /** `refs_from_manifest`; rows that are not objects fail when they are validated. */
  function RefRows(manifest: Row): Option<seq<Json>> {
    match Get(manifest, "artifacts")
    case Some(JList(artifacts)) =>
      var benchmark := match Get(manifest, "benchmark_provenance") case Some(JList(rows)) => rows case _ => [];
      Some(seq(|SINGLE_FIELDS|, i requires 0 <= i < |SINGLE_FIELDS| => Optional(manifest, SINGLE_FIELDS[i])) + artifacts + benchmark)
    case _ => None
  }

  // ----- the role table -----

  function Stored(refs: seq<Ref>, role: string): seq<Ref> {
    if refs == [] then []
    else
      var front, last := refs[..|refs| - 1], refs[|refs| - 1];
      Stored(front, role) + if last.role == role then [last] else []
  }

  function RolesOf(refs: seq<Ref>): set<string> {
    if refs == [] then {} else RolesOf(refs[..|refs| - 1]) + {refs[|refs| - 1].role}
  }

  function RoleCounts(refs: seq<Ref>): map<string, nat> {
    map role | role in RolesOf(refs) :: |Stored(refs, role)|
  }

  function RefsByRole(refs: seq<Ref>): map<string, seq<Ref>> {
    map role | role in RolesOf(refs) :: Stored(refs, role)
  }

  lemma {:induction false} AbsentRoleStoresNothing(refs: seq<Ref>, role: string)
    ensures role in RolesOf(refs) <==> Stored(refs, role) != []
    decreases |refs|
  {
    if refs != [] {
      var front, last := refs[..|refs| - 1], refs[|refs| - 1];
      AbsentRoleStoresNothing(front, role);
      RolesStep(front, last);
      assert refs == front + [last];
    }
  }

  lemma RolesStep(front: seq<Ref>, last: Ref)
    ensures RolesOf(front + [last]) == RolesOf(front) + {last.role}
  {
    var refs := front + [last];
    assert refs[..|refs| - 1] == front;
  }

  lemma StoredStep(front: seq<Ref>, last: Ref, role: string)
    ensures Stored(front + [last], role) == Stored(front, role) + if last.role == role then [last] else []
  {
    var refs := front + [last];
    assert refs[..|refs| - 1] == front;
  }

  lemma TableStep(front: seq<Ref>, last: Ref)
    ensures RefsByRole(front + [last]) == RefsByRole(front)[last.role := Stored(front, last.role) + [last]]
  {
    var now, want := RefsByRole(front + [last]), RefsByRole(front)[last.role := Stored(front, last.role) + [last]];
    RolesStep(front, last);
    assert now.Keys == want.Keys;
    forall role | role in now ensures now[role] == want[role] {
      StoredStep(front, last, role);
    }
  }

  lemma StoredLength(front: seq<Ref>, last: Ref, role: string)
    ensures |Stored(front + [last], role)| == |Stored(front, role)| + if last.role == role then 1 else 0
  {
    StoredStep(front, last, role);
  }

  lemma CountStep(front: seq<Ref>, last: Ref)
    ensures RoleCounts(front + [last]) == RoleCounts(front)[last.role := |Stored(front, last.role)| + 1]
  {
    var refs := front + [last];
    RolesStep(front, last);
    forall role | role in RoleCounts(refs)
      ensures RoleCounts(refs)[role] == if role == last.role then |Stored(front, role)| + 1 else RoleCounts(front)[role]
    {
      StoredLength(front, last, role);
    }
  }

  /** Looking a role up with a default. */
  lemma Default(refs: seq<Ref>, role: string)
    ensures Stored(refs, role) == if role in RefsByRole(refs) then RefsByRole(refs)[role] else []
    ensures |Stored(refs, role)| == if role in RoleCounts(refs) then RoleCounts(refs)[role] else 0
  {
    AbsentRoleStoresNothing(refs, role);
  }

  lemma AddRef(refs: seq<Ref>, ref: Ref)
    ensures RoleCounts(refs + [ref]) ==
      RoleCounts(refs)[ref.role := (if ref.role in RoleCounts(refs) then RoleCounts(refs)[ref.role] else 0) + 1]
    ensures RefsByRole(refs + [ref]) ==
      RefsByRole(refs)[ref.role := (if ref.role in RefsByRole(refs) then RefsByRole(refs)[ref.role] else []) + [ref]]
  {
    TableStep(refs, ref);
    CountStep(refs, ref);
    Default(refs, ref.role);
  }

  lemma ValidStep(files: map<string, File>, rows: seq<Json>, i: nat, refs: seq<Ref>)
    requires i < |rows| && ValidRefs(files, rows[..i]) == Some(refs)
    ensures ValidRefs(files, rows[..i + 1]) ==
      match ValidRef(files, rows[i]) case None => None case Some(ref) => Some(refs + [ref])
  {
    assert rows[..i + 1][..i] == rows[..i];
  }

  /** The loop of `index_bundle`: a counter and a table of lists, filled side by side. */
  method FillRoles(files: map<string, File>, rows: seq<Json>)
    returns (r: Option<(map<string, nat>, map<string, seq<Ref>>)>)
    ensures r == match ValidRefs(files, rows) case None => None case Some(refs) => Some((RoleCounts(refs), RefsByRole(refs)))
  {
    var roles: map<string, nat>, refsByRole: map<string, seq<Ref>> := map[], map[];
    ghost var refs: seq<Ref> := [];
    for i := 0 to |rows|
      invariant ValidRefs(files, rows[..i]) == Some(refs)
      invariant roles == RoleCounts(refs) && refsByRole == RefsByRole(refs)
    {
      ValidStep(files, rows, i, refs);
      var ref := ValidRef(files, rows[i]);
      if ref.None? {
        InvalidPrefix(files, rows, i + 1);
        return None;
      }
      var role := ref.value.role;
      AddRef(refs, ref.value);
      roles := roles[role := (if role in roles then roles[role] else 0) + 1];
      refsByRole := refsByRole[role := (if role in refsByRole then refsByRole[role] else []) + [ref.value]];
      refs := refs + [ref.value];
    }
    assert rows[..|rows|] == rows;
    return Some((roles, refsByRole));
  }

  // ----- what the table keeps -----

  ghost function Sum(counts: map<string, nat>): nat
    decreases |counts|
  {
    if counts == map[] then 0
    else
      var role :| role in counts;
      counts[role] + Sum(counts - {role})
  }

  lemma {:induction false} SumWithout(counts: map<string, nat>, role: string)
    requires role in counts
    ensures Sum(counts) == counts[role] + Sum(counts - {role})
    decreases |counts|
  {
    var first :| role in counts && first in counts && Sum(counts) == counts[first] + Sum(counts - {first});
    if first != role {
      SumWithout(counts - {first}, role);
      SumWithout(counts - {role}, first);
      assert counts - {first} - {role} == counts - {role} - {first};
    }
  }

  lemma SumStep(counts: map<string, nat>, role: string)
    ensures Sum(counts[role := (if role in counts then counts[role] else 0) + 1]) == Sum(counts) + 1
  {
    var after := counts[role := (if role in counts then counts[role] else 0) + 1];
    assert after - {role} == counts - {role};
    SumWithout(after, role);
    if role in counts {
      SumWithout(counts, role);
    } else {
      assert counts - {role} == counts;
    }
  }

  lemma {:induction false} CountsSumToAll(refs: seq<Ref>)
    ensures Sum(RoleCounts(refs)) == |refs|
    decreases |refs|
  {
    if refs == [] {
      assert RoleCounts(refs) == map[];
    } else {
      var front, last := refs[..|refs| - 1], refs[|refs| - 1];
      assert refs == front + [last];
      CountsSumToAll(front);
      CountStep(front, last);
      Default(front, last.role);
      SumStep(RoleCounts(front), last.role);
    }
  }

  // ----- the index -----

  function ScenarioOf(row: Json): Option<string> {
    if row.JObject? then Text(Get(row.fields, "scenario_id")) else None
  }

  predicate AreScenarios(rows: seq<Json>) {
    && (forall i | 0 <= i < |rows| :: ScenarioOf(rows[i]).Some?)
    && (forall i, j | 0 <= i < j < |rows| :: ScenarioOf(rows[i]) != ScenarioOf(rows[j]))
  }

  function ScenarioSet(rows: seq<Json>): set<string> {
    set i | 0 <= i < |rows| && ScenarioOf(rows[i]).Some? :: ScenarioOf(rows[i]).value
  }

  predicate CountHolds(matrix: Row, n: nat) {
    AsInt(Get(matrix, "row_count")).Some? ==> AsInt(Get(matrix, "row_count")).value == n
  }

  /** The scenarios of a matrix: no claim, one text each, none twice, and as many as counted. */
  function RowsOf(matrix: Row): Option<set<string>> {
    match Get(matrix, "rows")
    case Some(JList(rows)) =>
      if HasNoClaims(JObject(matrix)) && AreScenarios(rows) && CountHolds(matrix, |rows|) then Some(ScenarioSet(rows)) else None
    case _ => None
  }

  /** `row_set`. */
  method RowSet(matrix: Row) returns (r: Option<set<string>>)
    ensures r == RowsOf(matrix)
  {
    if !HasNoClaims(JObject(matrix)) { return None; }
    if Get(matrix, "rows").None? || !matrix["rows"].JList? { return None; }
    var rows := matrix["rows"].items;
    var scenarios: set<string> := {};
    for i := 0 to |rows|
      invariant AreScenarios(rows[..i]) && scenarios == ScenarioSet(rows[..i])
    {
      var scenario := ScenarioOf(rows[i]);
      if scenario.None? { return None; }
      if scenario.value in scenarios {
        var k :| 0 <= k < i && ScenarioOf(rows[..i][k]) == scenario;
        assert ScenarioOf(rows[k]) == ScenarioOf(rows[i]);
        return None;
      }
      ScenarioStep(rows, i);
      scenarios := scenarios + {scenario.value};
    }
    assert rows[..|rows|] == rows;
    if !CountHolds(matrix, |rows|) { return None; }
    return Some(scenarios);
  }

  lemma ScenarioStep(rows: seq<Json>, i: nat)
    requires i < |rows| && ScenarioOf(rows[i]).Some? && AreScenarios(rows[..i])
    requires ScenarioOf(rows[i]).value !in ScenarioSet(rows[..i])
    ensures AreScenarios(rows[..i + 1]) && ScenarioSet(rows[..i + 1]) == ScenarioSet(rows[..i]) + {ScenarioOf(rows[i]).value}
  {
    var front, more := rows[..i], rows[..i + 1];
    assert more == front + [rows[i]];
    forall k | 0 <= k < i ensures ScenarioOf(more[k]) != ScenarioOf(more[i]) {
      assert ScenarioOf(front[k]).value in ScenarioSet(front);
    }
    forall s | s in ScenarioSet(front) + {ScenarioOf(rows[i]).value} ensures s in ScenarioSet(more) {
      if s in ScenarioSet(front) {
        var k :| 0 <= k < i && ScenarioOf(front[k]) == Some(s);
        assert ScenarioOf(more[k]) == Some(s);
      } else {
        assert ScenarioOf(more[i]) == Some(s);
      }
    }
  }

  /** `nested_text`: the text that a path of keys leads to, if it is not empty. */
  function NestedText(v: Option<Json>, keys: seq<string>): Option<string>
    decreases |keys|
  {
    if keys == [] then Text(v)
    else match v case Some(JObject(fields)) => NestedText(Get(fields, keys[0]), keys[1..]) case _ => None
  }

  function FirstJsonText(file: File, keys: seq<string>, fallback: string): string {
    if file.suffix != DotJson || file.json.None? then fallback
    else NestedText(Some(JObject(file.json.value)), keys).GetOr(fallback)
  }

  const BPF_KEYS := [["bpf_object_sha256"], ["object_sha256"], ["object_hash"], ["bpf", "object_sha256"], ["metadata", "object_sha256"]]

  function FirstFound(v: Json, paths: seq<seq<string>>, fallback: string): string {
    if paths == [] then fallback
    else NestedText(Some(v), paths[0]).GetOr(FirstFound(v, paths[1..], fallback))
  }

  function BpfIdentity(file: File, digest: string): string {
    if file.suffix != DotJson || file.json.None? then digest else FirstFound(JObject(file.json.value), BPF_KEYS, digest)
  }

  function BenchmarkState(manifest: Row): Option<(string, nat)> {
    match Get(manifest, "benchmark_provenance")
    case Some(JList(rows)) => Some(("refs", |rows|))
    case Some(JObject(fields)) =>
      (match Text(Get(fields, "status")) case None => None case Some(status) => Some((status, 0)))
    case _ => None
  }

  const REQUIRED_ROLES: set<string> := {
    "matrix-manifest", "matrix-row", "rollback-proof", "cleanup-proof", "host-refusal-proof", "privacy-scan",
    "runner-substrate-proof", "runner-cleanliness-proof", "protected-environment-review"}
  const BPF_ROLES: set<string> := {"bpf-metadata", "bpf-skip-json"}

  /** `single_role`. */
  function Single(refsByRole: map<string, seq<Ref>>, role: string): Option<Ref> {
    if role in refsByRole && |refsByRole[role]| == 1 then Some(refsByRole[role][0]) else None
  }

  predicate HasRoles(roles: map<string, nat>) {
    REQUIRED_ROLES <= roles.Keys && BPF_ROLES * roles.Keys != {}
  }

  /** What `index_bundle` makes of the filled tables. */
  function Indexed(b: Bundle, roles: map<string, nat>, refsByRole: map<string, seq<Ref>>): Option<Index> {
    if !HasRoles(roles) then None
    else
      var bpfRole := if "bpf-metadata" in refsByRole then "bpf-metadata" else "bpf-skip-json";
      match (Single(refsByRole, "matrix-manifest"), Single(refsByRole, "runner-substrate-proof"),
             Single(refsByRole, "protected-environment-review"), Single(refsByRole, bpfRole))
      case (Some(matrix), Some(runner), Some(review), Some(bpf)) =>
        if !({matrix.path, runner.path, review.path, bpf.path} <= b.files.Keys) then None
        else FromFiles(b, roles, refsByRole, b.files[matrix.path], b.files[runner.path], b.files[review.path],
                       BpfIdentity(b.files[bpf.path], bpf.digest))
      case _ => None
  }

  function FromFiles(
      b: Bundle, roles: map<string, nat>, refsByRole: map<string, seq<Ref>>, matrix: File, runner: File, review: File,
      bpfIdentity: string): Option<Index>
  {
    match (Text(Get(b.manifest, "supported_tuple")), BenchmarkState(b.manifest))
    case (Some(supported), Some(benchmark)) =>
      if FirstJsonText(runner, ["kernel_tuple", "supported_tuple"], supported) != supported || matrix.json.None? then None
      else
        (match RowsOf(matrix.json.value)
         case None => None
         case Some(rows) =>
           Some(Index.Index(roles, refsByRole, rows, supported, FirstJsonText(review, ["head_sha"], "unavailable"), bpfIdentity, benchmark)))
    case _ => None
  }

  function RefsOf(b: Bundle): Option<seq<Ref>> {
    if !HasNoClaims(JObject(b.manifest)) || RefRows(b.manifest).None? then None
    else ValidRefs(b.files, RefRows(b.manifest).value)
  }

  function IndexOf(b: Bundle): Option<Index> {
    match RefsOf(b) case None => None case Some(refs) => Indexed(b, RoleCounts(refs), RefsByRole(refs))
  }

  method ReadFiles(
      b: Bundle, roles: map<string, nat>, refsByRole: map<string, seq<Ref>>, matrix: File, runner: File, review: File,
      bpfIdentity: string) returns (r: Option<Index>)
    ensures r == FromFiles(b, roles, refsByRole, matrix, runner, review, bpfIdentity)
  {
    var supported, benchmark := Text(Get(b.manifest, "supported_tuple")), BenchmarkState(b.manifest);
    if supported.None? || benchmark.None? { return None; }
    if FirstJsonText(runner, ["kernel_tuple", "supported_tuple"], supported.value) != supported.value { return None; }
    if matrix.json.None? { return None; }
    var rows := RowSet(matrix.json.value);
    if rows.None? { return None; }
    var gitSha := FirstJsonText(review, ["head_sha"], "unavailable");
    return Some(Index.Index(roles, refsByRole, rows.value, supported.value, gitSha, bpfIdentity, benchmark.value));
  }

  /** `index_bundle`. */
  method IndexBundle(b: Bundle) returns (r: Option<Index>)
    ensures r == IndexOf(b)
  {
    if !HasNoClaims(JObject(b.manifest)) || RefRows(b.manifest).None? { return None; }
    var filled := FillRoles(b.files, RefRows(b.manifest).value);
    if filled.None? { return None; }
    var (roles, refsByRole) := filled.value;
    if !HasRoles(roles) { return None; }
    var matrix, runner := Single(refsByRole, "matrix-manifest"), Single(refsByRole, "runner-substrate-proof");
    var review := Single(refsByRole, "protected-environment-review");
    var bpf := Single(refsByRole, if "bpf-metadata" in refsByRole then "bpf-metadata" else "bpf-skip-json");
    if matrix.None? || runner.None? || review.None? || bpf.None? { return None; }
    if !({matrix.value.path, runner.value.path, review.value.path, bpf.value.path} <= b.files.Keys) { return None; }
    r := ReadFiles(
      b, roles, refsByRole, b.files[matrix.value.path], b.files[runner.value.path], b.files[review.value.path],
      BpfIdentity(b.files[bpf.value.path], bpf.value.digest));
  }

  /** In an index each role's count is the number of references stored for it, no role is
      stored empty, and the counts sum to all references of the manifest. */
  lemma CountsAreOfRefs(b: Bundle)
    requires IndexOf(b).Some?
    ensures var index := IndexOf(b).value;
      && index.roles.Keys == index.refsByRole.Keys
      && (forall role | role in index.roles :: index.roles[role] == |index.refsByRole[role]| > 0)
      && Sum(index.roles) == |RefsOf(b).value|
  {
    var refs := RefsOf(b).value;
    CountsSumToAll(refs);
    forall role | role in RoleCounts(refs) ensures |Stored(refs, role)| > 0 { AbsentRoleStoresNothing(refs, role); }
    IndexKeepsTables(b, refs);
  }

  lemma IndexKeepsTables(b: Bundle, refs: seq<Ref>)
    requires RefsOf(b) == Some(refs) && IndexOf(b).Some?
    ensures IndexOf(b).value.roles == RoleCounts(refs) && IndexOf(b).value.refsByRole == RefsByRole(refs)
  {}

  // ----- comparison -----

  datatype Options = Options(tupleChange: bool, bpfChange: bool, gitShaChange: bool)

  predicate Same(left: Index, right: Index, options: Options) {
    && left.roles == right.roles && left.matrixRows == right.matrixRows
    && (options.tupleChange || left.supportedTuple == right.supportedTuple)
    && (options.gitShaChange || left.gitSha == right.gitSha)
    && (options.bpfChange || left.bpfIdentity == right.bpfIdentity)
    && left.benchmark == right.benchmark
  }

  ghost predicate Compares(left: Bundle, right: Bundle, options: Options) {
    IndexOf(left).Some? && IndexOf(right).Some? && Same(IndexOf(left).value, IndexOf(right).value, options)
  }

  /** `compare` does not raise. */
  method Compare(left: Bundle, right: Bundle, options: Options) returns (ok: bool)
    ensures ok <==> Compares(left, right, options)
  {
    var l := IndexBundle(left);
    if l.None? { return false; }
    var r := IndexBundle(right);
    if r.None? { return false; }
    return Same(l.value, r.value, options);
  }

  /** With any flags, comparison is an equivalence on the bundles that can be indexed. */
  lemma ComparisonIsEquivalence(a: Bundle, b: Bundle, c: Bundle, options: Options)
    ensures Compares(a, a, options) <==> IndexOf(a).Some?
    ensures Compares(a, b, options) <==> Compares(b, a, options)
    ensures Compares(a, b, options) && Compares(b, c, options) ==> Compares(a, c, options)
  {}

  predicate Allows(less: Options, more: Options) {
    && (less.tupleChange ==> more.tupleChange) && (less.bpfChange ==> more.bpfChange)
    && (less.gitShaChange ==> more.gitShaChange)
  }

  /** Turning a flag on never rejects more. */
  lemma FlagsOnlyAccept(left: Bundle, right: Bundle, less: Options, more: Options)
    requires Compares(left, right, less) && Allows(less, more)
    ensures Compares(left, right, more)
  {}

  /** Bundles that compare have as many references, role by role and in all. */
  lemma ComparedBundlesHaveAsManyRefs(left: Bundle, right: Bundle, options: Options)
    requires Compares(left, right, options)
    ensures |RefsOf(left).value| == |RefsOf(right).value|
    ensures forall role :: |Stored(RefsOf(left).value, role)| == |Stored(RefsOf(right).value, role)|
  {
    CountsAreOfRefs(left);
    CountsAreOfRefs(right);
    IndexKeepsTables(left, RefsOf(left).value);
    IndexKeepsTables(right, RefsOf(right).value);
    forall role ensures |Stored(RefsOf(left).value, role)| == |Stored(RefsOf(right).value, role)| {
      Default(RefsOf(left).value, role);
      Default(RefsOf(right).value, role);
    }
  }
}
