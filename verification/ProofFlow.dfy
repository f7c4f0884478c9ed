/** The analyser of the embedded proof writer (qa/manual_vm_proof_flow.py), from parsed
    scripts on: recognisers are functions, the two scanning loops are methods. */
module ProofFlow {
  import opened Wrappers
  import opened PythonAst

  const RUNNER_PROOF_PATH := "evidence/lab/manual-vm-proof/runner-substrate-proof.json"

  datatype ProofWrite = ProofWrite(script: Script, index: nat, call: Expr)
  datatype ProofCapture = ProofCapture(index: nat, status: Expr)
  datatype Verdict = Accepted | NotOneWriter | ProofError

  // ----- recognisers -----

  predicate IsName(e: Expr, name: string) {
    e.Name? && e.id == name
  }

  predicate IsString(e: Expr, s: string) {
    e == Const(StrConst(s))
  }

  predicate IsQemuVersionNonempty(e: Expr) {
    e.Compare? && IsName(e.first, "qemu_version") && e.ops == [NotEq] && |e.comparators| == 1
    && IsString(e.comparators[0], "")
  }

  predicate IsQemuUsableExpr(e: Expr) {
    e.BoolOp? && e.op == And && |e.operands| == 2
    && IsName(e.operands[0], "qemu_available") && IsQemuVersionNonempty(e.operands[1])
  }

  /** The value of the first entry whose key is the constant `key`. */
  function DictValue(entries: seq<Entry>, key: string): Option<Expr> {
    if entries == [] then None
    else if IsKey(entries[0].key, key) then Some(entries[0].value)
    else DictValue(entries[1..], key)
  }

  /** Python's `==` between constants, where True is 1 and False is 0. */
  predicate ConstantsEqual(a: Constant, b: Constant) {
    ConstantAsInt(a) == ConstantAsInt(b)
  }

  function ConstantAsInt(c: Constant): Constant {
    if c.BoolConst? then IntConst(if c.b then 1 else 0) else c
  }

  predicate IsKeyword(k: Keyword, name: string, value: Constant) {
    k.arg == Some(name) && k.value.Const? && ConstantsEqual(k.value.constant, value)
  }

  predicate IsProofJsonDump(e: Expr) {
    e.Call? && e.func == Attribute(Name("json"), "dumps")
    && |e.args| == 1 && IsName(e.args[0], "proof")
    && |e.keywords| == 2
    && IsKeyword(e.keywords[0], "indent", IntConst(2)) && IsKeyword(e.keywords[1], "sort_keys", BoolConst(true))
  }

  predicate IsCanonicalWriteArg(e: Expr) {
    e.BinOp? && e.operator == Add && IsProofJsonDump(e.left) && IsString(e.right, "\n")
  }

  function PathLiteral(e: Expr): Option<string> {
    if e.Const? && e.constant.StrConst? then Some(e.constant.s)
    else if e.Call? && IsName(e.func, "Path") && |e.args| == 1 then PathLiteral(e.args[0])
    else None
  }

  function WritePath(call: Expr, paths: map<string, string>): Option<string>
    requires call.Call?
  {
    if !call.func.Attribute? || call.func.attr != "write_text" then None
    else
      var receiver := call.func.owner;
      if receiver.Name? then (if receiver.id in paths then Some(paths[receiver.id]) else None)
      else PathLiteral(receiver)
  }

  predicate IsForbidden(e: Expr) { e.Call? || e.Effect? }

  predicate LiteralKeysOnly(e: Expr) {
    e.Dict? ==> forall i | 0 <= i < |e.entries| :: IsStringKey(e.entries[i].key)
  }

  predicate HasForbiddenCaptureNode(e: Expr) {
    exists x | x in Walk(e) :: IsForbidden(x)
  }

  predicate HasLiteralDictKeys(e: Expr) {
    forall x | x in Walk(e) :: LiteralKeysOnly(x)
  }

  predicate IsSideEffectFreeCaptureValue(e: Expr) {
    !HasForbiddenCaptureNode(e) && HasLiteralDictKeys(e)
  }

  type DictTable = map<string, seq<Entry>>

  function QemuStatusFrom(e: Expr, dicts: DictTable): Option<Expr> {
    if e.Dict? then
      var status := DictValue(e.entries, "status");
      if status.Some? then status
      else
        match DictValue(e.entries, "qemu")
        case Some(Dict(inner)) => DictValue(inner, "status")
        case Some(Name(id)) => if id in dicts then DictValue(dicts[id], "status") else None
        case _ => None
    else if e.Name? && e.id in dicts then DictValue(dicts[e.id], "status")
    else None
  }

  function ProofCaptureStatus(value: Expr, dicts: DictTable): Option<Expr> {
    if !value.Dict? then None else CaptureEntries(value.entries, dicts, None)
  }

  function CaptureEntries(entries: seq<Entry>, dicts: DictTable, status: Option<Expr>): Option<Expr> {
    if entries == [] then status
    else if !IsStringKey(entries[0].key) then None
    else if IsKey(entries[0].key, "qemu") then
      if !IsName(entries[0].value, "qemu") || "qemu" !in dicts then None
      else CaptureEntries(entries[1..], dicts, QemuStatusFrom(entries[0].value, dicts))
    else if !IsSideEffectFreeCaptureValue(entries[0].value) then None
    else CaptureEntries(entries[1..], dicts, status)
  }

  predicate IsNameListTarget(s: Stmt, name: string)
    requires s.Assign?
  {
    exists t | t in s.targets :: IsName(t, name)
  }

  // ----- what the scanning loops compute, by the number of statements seen -----

  function PathsAfterTargets(paths: map<string, string>, targets: seq<Expr>, rhs: Expr): map<string, string> {
    if targets == [] then paths
    else
      var before := PathsAfterTargets(paths, targets[..|targets| - 1], rhs);
      var t := targets[|targets| - 1];
      if t.Name? && PathLiteral(rhs).Some? then before[t.id := PathLiteral(rhs).value] else before
  }

  function PathsAfter(body: Script, n: nat): map<string, string>
    requires n <= |body|
  {
    if n == 0 then map[]
    else if body[n - 1].Assign? then PathsAfterTargets(PathsAfter(body, n - 1), body[n - 1].targets, body[n - 1].rhs)
    else PathsAfter(body, n - 1)
  }

  predicate IsWriteStatement(s: Stmt, paths: map<string, string>) {
    s.ExprStmt? && s.expr.Call?
    && |s.expr.args| == 1 && s.expr.keywords == []
    && IsCanonicalWriteArg(s.expr.args[0]) && WritePath(s.expr, paths) == Some(RUNNER_PROOF_PATH)
  }

  function WritesIn(body: Script, n: nat): (writes: seq<ProofWrite>)
    requires n <= |body|
  {
    if n == 0 then [] else
      var last := if IsWriteStatement(body[n - 1], PathsAfter(body, n - 1))
                  then [ProofWrite(body, n - 1, body[n - 1].expr)] else [];
      WritesIn(body, n - 1) + last
  }

  function WritesOf(scripts: seq<Script>, n: nat): seq<ProofWrite>
    requires n <= |scripts|
  {
    if n == 0 then [] else WritesOf(scripts, n - 1) + WritesIn(scripts[n - 1], |scripts[n - 1]|)
  }

  function DictsAfterTargets(dicts: DictTable, targets: seq<Expr>, rhs: Expr): DictTable {
    if targets == [] then dicts
    else
      var before := DictsAfterTargets(dicts, targets[..|targets| - 1], rhs);
      var t := targets[|targets| - 1];
      if t.Name? && rhs.Dict? then before[t.id := rhs.entries] else before
  }

  function DictsAfter(body: Script, n: nat): DictTable
    requires n <= |body|
  {
    if n == 0 then map[]
    else if body[n - 1].Assign? then DictsAfterTargets(DictsAfter(body, n - 1), body[n - 1].targets, body[n - 1].rhs)
    else DictsAfter(body, n - 1)
  }

  /** The status captured by an assignment: that of its last capturing target. */
  function StatementStatus(dicts: DictTable, targets: seq<Expr>, rhs: Expr): Option<Expr> {
    if targets == [] then None
    else
      var here := ProofCaptureStatus(rhs, DictsAfterTargets(dicts, targets, rhs));
      if IsName(targets[|targets| - 1], "proof") && here.Some? then here
      else StatementStatus(dicts, targets[..|targets| - 1], rhs)
  }

  function CaptureAfter(body: Script, n: nat): Option<ProofCapture>
    requires n <= |body|
  {
    if n == 0 then None
    else if !body[n - 1].Assign? then CaptureAfter(body, n - 1)
    else
      match StatementStatus(DictsAfter(body, n - 1), body[n - 1].targets, body[n - 1].rhs)
      case Some(status) => Some(ProofCapture(n - 1, status))
      case None => CaptureAfter(body, n - 1)
  }

  predicate AssignsUsable(s: Stmt) {
    s.Assign? && IsNameListTarget(s, "qemu_usable") && IsQemuUsableExpr(s.rhs)
  }

  /** The accepted inputs: `w` is the only canonical write and `c` the last capture. */
  predicate Accepts(scripts: seq<Script>, w: ProofWrite, c: ProofCapture) {
    && WritesOf(scripts, |scripts|) == [w]
    && CaptureAfter(w.script, |w.script|) == Some(c)
    && (exists s | s in w.script :: AssignsUsable(s))
    && c.status.IfExp? && IsName(c.status.test, "qemu_usable")
    && w.index == c.index + 1 == |w.script| - 1
  }

  // ----- the loops -----

  method CanonicalWrites(scripts: seq<Script>) returns (writes: seq<ProofWrite>)
    ensures writes == WritesOf(scripts, |scripts|)
  {
    writes := [];
    for k := 0 to |scripts|
      invariant writes == WritesOf(scripts, k)
    {
      var script := scripts[k];
      var paths: map<string, string> := map[];
      for index := 0 to |script|
        invariant paths == PathsAfter(script, index)
        invariant writes == WritesOf(scripts, k) + WritesIn(script, index)
      {
        var statement := script[index];
        if statement.Assign? {
          var targets := statement.targets;
          for t := 0 to |targets|
            invariant paths == PathsAfterTargets(PathsAfter(script, index), targets[..t], statement.rhs)
          {
            assert targets[..t + 1][..t] == targets[..t];
            if targets[t].Name? {
              var path := PathLiteral(statement.rhs);
              if path.Some? {
                paths := paths[targets[t].id := path.value];
              }
            }
          }
          assert targets[..|targets|] == targets;
        }
        if statement.ExprStmt? && statement.expr.Call? {
          var call := statement.expr;
          if |call.args| == 1 && call.keywords == [] && IsCanonicalWriteArg(call.args[0])
            && WritePath(call, paths) == Some(RUNNER_PROOF_PATH)
          {
            writes := writes + [ProofWrite(script, index, call)];
          }
        }
      }
    }
  }

  lemma UsableStep(script: Script, n: nat)
    requires n < |script|
    ensures (exists s | s in script[..n + 1] :: AssignsUsable(s)) <==>
      (exists s | s in script[..n] :: AssignsUsable(s)) || AssignsUsable(script[n])
  {}

  lemma TargetStep(dicts: DictTable, targets: seq<Expr>, t: nat, rhs: Expr)
    requires t < |targets|
    ensures DictsAfterTargets(dicts, targets[..t + 1], rhs) ==
      var before := DictsAfterTargets(dicts, targets[..t], rhs);
      if targets[t].Name? && rhs.Dict? then before[targets[t].id := rhs.entries] else before
    ensures StatementStatus(dicts, targets[..t + 1], rhs) ==
      var here := ProofCaptureStatus(rhs, DictsAfterTargets(dicts, targets[..t + 1], rhs));
      if IsName(targets[t], "proof") && here.Some? then here else StatementStatus(dicts, targets[..t], rhs)
  {
    assert targets[..t + 1][..t] == targets[..t];
  }

  method ScanCapture(script: Script) returns (capture: Option<ProofCapture>, hasUsableAssignment: bool)
    ensures capture == CaptureAfter(script, |script|)
    ensures hasUsableAssignment <==> exists s | s in script :: AssignsUsable(s)
  {
    var qemuDicts: DictTable := map[];
    hasUsableAssignment, capture := false, None;
    for index := 0 to |script|
      invariant qemuDicts == DictsAfter(script, index)
      invariant capture == CaptureAfter(script, index)
      invariant hasUsableAssignment <==> exists s | s in script[..index] :: AssignsUsable(s)
    {
      var statement := script[index];
      UsableStep(script, index);
      if statement.Assign? {
        var targets, rhs := statement.targets, statement.rhs;
        if IsNameListTarget(statement, "qemu_usable") && IsQemuUsableExpr(rhs) {
          hasUsableAssignment := true;
        }
        ghost var dicts := qemuDicts;
        for t := 0 to |targets|
          invariant qemuDicts == DictsAfterTargets(dicts, targets[..t], rhs)
          invariant capture ==
            match StatementStatus(dicts, targets[..t], rhs)
            case Some(status) => Some(ProofCapture(index, status))
            case None => CaptureAfter(script, index)
        {
          TargetStep(dicts, targets, t, rhs);
          var target := targets[t];
          if target.Name? && rhs.Dict? {
            qemuDicts := qemuDicts[target.id := rhs.entries];
          }
          if target.Name? && target.id == "proof" {
            var status := ProofCaptureStatus(rhs, qemuDicts);
            if status.Some? {
              capture := Some(ProofCapture(index, status.value));
            }
          }
        }
        assert targets[..|targets|] == targets;
      }
    }
    assert script[..|script|] == script;
  }

  method ValidateQemuProofSemantics(scripts: seq<Script>) returns (verdict: Verdict)
    ensures verdict.Accepted? <==> exists w, c :: Accepts(scripts, w, c)
    ensures verdict.NotOneWriter? <==> |WritesOf(scripts, |scripts|)| != 1
  {
    var writes := CanonicalWrites(scripts);
    if |writes| != 1 { return NotOneWriter; }
    var proofWrite := writes[0];
    var capture, hasUsableAssignment := ScanCapture(proofWrite.script);
    if capture.None? { return ProofError; }
    var status := capture.value.status;
    if !(hasUsableAssignment && status.IfExp? && IsName(status.test, "qemu_usable")) { return ProofError; }
    if proofWrite.index != capture.value.index + 1 || proofWrite.index != |proofWrite.script| - 1 { return ProofError; }
    assert Accepts(scripts, proofWrite, capture.value);
    return Accepted;
  }
}
