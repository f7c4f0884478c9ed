/** Which scripts the analyser accepts, written out: the statements themselves, built from
    their parts, instead of the tests that recognise them. */
module ProofFlowShape {
  import opened Wrappers
  import opened PythonAst
  import opened ProofFlow
  import opened ProofFlowSoundness

  // ----- paths -----

  /** A string with calls of `Path` around it, each with some keywords. */
  function PathExpr(s: string, keywords: seq<seq<Keyword>>): Expr {
    if keywords == [] then Const(StrConst(s)) else Call(Name("Path"), [PathExpr(s, keywords[1..])], keywords[0])
  }

  ghost predicate IsPathExpr(e: Expr, s: string) {
    exists keywords :: e == PathExpr(s, keywords)
  }

  lemma {:induction false} PathLiteralIff(e: Expr, s: string)
    ensures PathLiteral(e) == Some(s) <==> IsPathExpr(e, s)
    decreases e
  {
    if e.Const? {
      assert PathExpr(s, []) == Const(StrConst(s));
    } else if e.Call? && |e.args| == 1 {
      PathLiteralIff(e.args[0], s);
      if PathLiteral(e) == Some(s) {
        var keywords :| e.args[0] == PathExpr(s, keywords);
        assert ([e.keywords] + keywords)[1..] == keywords;
        assert e == PathExpr(s, [e.keywords] + keywords);
      }
      if keywords :| e == PathExpr(s, keywords) {
        assert e.args[0] == PathExpr(s, keywords[1..]);
      }
    }
  }

  ghost predicate AssignsPath(stmt: Stmt, x: string, s: string) {
    stmt.Assign? && Name(x) in stmt.targets && IsPathExpr(stmt.rhs, s)
  }

  /** The last path assigned to `x` by the first `n` statements is `s`. */
  ghost predicate IsLastPath(body: Script, n: nat, x: string, s: string)
    requires n <= |body|
  {
    exists k | 0 <= k < n :: AssignsPath(body[k], x, s) && NoPathSince(body, k + 1, n, x)
  }

  ghost predicate NoPathSince(body: Script, k: nat, n: nat, x: string)
    requires n <= |body|
  {
    forall m, t | k <= m < n :: !AssignsPath(body[m], x, t)
  }

  predicate Holds(paths: map<string, string>, x: string, s: string) { x in paths && paths[x] == s }

  lemma {:induction false} PathsAfterTargetsHold(paths: map<string, string>, targets: seq<Expr>, rhs: Expr, x: string, s: string)
    ensures Holds(PathsAfterTargets(paths, targets, rhs), x, s) <==>
      if Name(x) in targets && PathLiteral(rhs).Some? then PathLiteral(rhs).value == s else Holds(paths, x, s)
    decreases |targets|
  {
    if targets != [] {
      var front, last := targets[..|targets| - 1], targets[|targets| - 1];
      assert targets == front + [last];
      PathsAfterTargetsHold(paths, front, rhs, x, s);
      assert Name(x) in targets <==> Name(x) in front || last == Name(x);
    }
  }

  /** The table of paths holds, for each name, the last path assigned to it. */
  lemma {:induction false} TableHoldsLastPath(body: Script, n: nat, x: string, s: string)
    requires n <= |body|
    ensures Holds(PathsAfter(body, n), x, s) <==> IsLastPath(body, n, x, s)
    decreases n
  {
    if n > 0 {
      var stmt := body[n - 1];
      TableHoldsLastPath(body, n - 1, x, s);
      PathStep(body, n - 1, x, s);
      if stmt.Assign? {
        PathsAfterTargetsHold(PathsAfter(body, n - 1), stmt.targets, stmt.rhs, x, s);
        AssignsPathIff(stmt, x, s);
      }
    }
  }

  lemma AssignsPathIff(stmt: Stmt, x: string, s: string)
    requires stmt.Assign?
    ensures AssignsPath(stmt, x, s) <==> Name(x) in stmt.targets && PathLiteral(stmt.rhs) == Some(s)
    ensures (exists t :: AssignsPath(stmt, x, t)) <==> Name(x) in stmt.targets && PathLiteral(stmt.rhs).Some?
  {
    PathLiteralIff(stmt.rhs, s);
    if Name(x) in stmt.targets && PathLiteral(stmt.rhs).Some? {
      PathLiteralIff(stmt.rhs, PathLiteral(stmt.rhs).value);
      assert AssignsPath(stmt, x, PathLiteral(stmt.rhs).value);
    }
    if t :| AssignsPath(stmt, x, t) { PathLiteralIff(stmt.rhs, t); }
  }

  lemma PathStep(body: Script, n: nat, x: string, s: string)
    requires n < |body|
    ensures IsLastPath(body, n + 1, x, s) <==>
      if exists t :: AssignsPath(body[n], x, t) then AssignsPath(body[n], x, s) else IsLastPath(body, n, x, s)
  {
    if t :| AssignsPath(body[n], x, t) {
      if AssignsPath(body[n], x, s) { assert NoPathSince(body, n + 1, n + 1, x); }
    } else if IsLastPath(body, n, x, s) {
      var k :| 0 <= k < n && AssignsPath(body[k], x, s) && NoPathSince(body, k + 1, n, x);
      assert NoPathSince(body, k + 1, n + 1, x);
    }
  }

  // ----- writes -----

  /** `<receiver>.write_text(json.dumps(proof, indent=2, sort_keys=<yes>) + "\n")` */
  function WriteBy(receiver: Expr, yes: Constant): Stmt {
    var dump := Call(Attribute(Name("json"), "dumps"), [Name("proof")],
      [Keyword(Some("indent"), Const(IntConst(2))), Keyword(Some("sort_keys"), Const(yes))]);
    ExprStmt(Call(Attribute(receiver, "write_text"), [BinOp(dump, Add, Const(StrConst("\n")))], []))
  }

  /** Statement `i` writes the proof file: True may be spelled 1. */
  ghost predicate IsProofWrite(body: Script, i: nat)
    requires i < |body|
  {
    exists receiver, yes ::
      && body[i] == WriteBy(receiver, yes) && (yes == BoolConst(true) || yes == IntConst(1))
      && GoesToProof(body, i, receiver)
  }

  ghost predicate GoesToProof(body: Script, i: nat, receiver: Expr)
    requires i < |body|
  {
    if receiver.Name? then IsLastPath(body, i, receiver.id, RUNNER_PROOF_PATH) else IsPathExpr(receiver, RUNNER_PROOF_PATH)
  }

  lemma GoesToProofIff(body: Script, i: nat, call: Expr)
    requires i < |body| && call.Call? && call.func.Attribute? && call.func.attr == "write_text"
    ensures WritePath(call, PathsAfter(body, i)) == Some(RUNNER_PROOF_PATH) <==> GoesToProof(body, i, call.func.owner)
  {
    var receiver := call.func.owner;
    if receiver.Name? {
      TableHoldsLastPath(body, i, receiver.id, RUNNER_PROOF_PATH);
    } else {
      PathLiteralIff(receiver, RUNNER_PROOF_PATH);
    }
  }

  lemma DumpIs(e: Expr)
    requires IsProofJsonDump(e)
    ensures
      var yes := e.keywords[1].value.constant;
      && e.keywords == [Keyword(Some("indent"), Const(IntConst(2))), Keyword(Some("sort_keys"), Const(yes))]
      && e.args == [Name("proof")] && (yes == BoolConst(true) || yes == IntConst(1))
  {}

  /** The recogniser finds exactly these statements. */
  lemma WriteStatementIff(body: Script, i: nat)
    requires i < |body|
    ensures IsWriteStatement(body[i], PathsAfter(body, i)) <==> IsProofWrite(body, i)
  {
    if IsWriteStatement(body[i], PathsAfter(body, i)) {
      var call := body[i].expr;
      DumpIs(call.args[0].left);
      GoesToProofIff(body, i, call);
      var yes := call.args[0].left.keywords[1].value.constant;
      assert call.args == [call.args[0]];
      assert body[i] == WriteBy(call.func.owner, yes);
    }
    if IsProofWrite(body, i) {
      var receiver, yes :| body[i] == WriteBy(receiver, yes) && (yes == BoolConst(true) || yes == IntConst(1))
        && GoesToProof(body, i, receiver);
      GoesToProofIff(body, i, body[i].expr);
    }
  }

  lemma {:induction false} StatementIsReported(body: Script, n: nat, i: nat)
    requires i < n <= |body| && IsWriteStatement(body[i], PathsAfter(body, i))
    ensures ProofWrite(body, i, body[i].expr) in WritesIn(body, n)
    decreases n
  {
    if i < n - 1 { StatementIsReported(body, n - 1, i); }
  }

  lemma {:induction false} ReportsAreOrdered(body: Script, n: nat)
    requires n <= |body|
    ensures forall a, b | 0 <= a < b < |WritesIn(body, n)| :: WritesIn(body, n)[a].index < WritesIn(body, n)[b].index < n
    decreases n
  {
    if n > 0 {
      ReportsAreOrdered(body, n - 1);
      FoundWritesAreStatements(body, n - 1);
    }
  }

  /** `w` stands at its place in its script, and writes the proof file there. */
  ghost predicate IsWriteAt(w: ProofWrite) {
    w.index < |w.script| && w.script[w.index] == ExprStmt(w.call) && IsProofWrite(w.script, w.index)
  }

  /** What the scan of a script reports: the writes of the proof file, in order. */
  lemma ReportedIff(body: Script, w: ProofWrite)
    ensures w in WritesIn(body, |body|) <==> w.script == body && IsWriteAt(w)
  {
    FoundWritesAreStatements(body, |body|);
    if w.script == body && w.index < |body| {
      WriteStatementIff(body, w.index);
      if IsWriteAt(w) { StatementIsReported(body, |body|, w.index); }
    }
  }

  lemma {:induction false} ReportedSomewhere(scripts: seq<Script>, n: nat, w: ProofWrite)
    requires n <= |scripts|
    ensures w in WritesOf(scripts, n) <==> w.script in scripts[..n] && IsWriteAt(w)
    decreases n
  {
    if n > 0 {
      ReportedSomewhere(scripts, n - 1, w);
      ReportedIff(scripts[n - 1], w);
      assert scripts[..n] == scripts[..n - 1] + [scripts[n - 1]];
    }
  }

  ghost predicate IsSilent(body: Script) {
    forall w: ProofWrite | w.script == body :: !IsWriteAt(w)
  }

  ghost predicate IsOnlyWriteOf(body: Script, w: ProofWrite) {
    w.script == body && IsWriteAt(w) && forall v: ProofWrite | v.script == body && IsWriteAt(v) :: v == w
  }

  /** Script `k` writes the proof file once, by `w`, and the others of the first `n` do not. */
  ghost predicate IsSoleWriter(scripts: seq<Script>, n: nat, k: nat, w: ProofWrite)
    requires n <= |scripts|
  {
    k < n && IsOnlyWriteOf(scripts[k], w) && forall m | 0 <= m < n && m != k :: IsSilent(scripts[m])
  }

  lemma SingleIff(s: seq<ProofWrite>, w: ProofWrite)
    requires forall a, b | 0 <= a < b < |s| :: s[a] != s[b]
    ensures s == [w] <==> w in s && forall v | v in s :: v == w
  {
    if w in s && forall v | v in s :: v == w {
      assert s[0] in s && s[|s| - 1] in s;
    }
  }

  lemma ScriptWrites(body: Script, w: ProofWrite)
    ensures WritesIn(body, |body|) == [] <==> IsSilent(body)
    ensures WritesIn(body, |body|) == [w] <==> IsOnlyWriteOf(body, w)
  {
    forall v: ProofWrite ensures v in WritesIn(body, |body|) <==> v.script == body && IsWriteAt(v) { ReportedIff(body, v); }
    ReportsAreOrdered(body, |body|);
    SingleIff(WritesIn(body, |body|), w);
    if WritesIn(body, |body|) != [] { assert WritesIn(body, |body|)[0] in WritesIn(body, |body|); }
  }

  lemma SingleOfTwo(a: seq<ProofWrite>, b: seq<ProofWrite>, w: ProofWrite)
    ensures a + b == [] <==> a == [] && b == []
    ensures a + b == [w] <==> (a == [w] && b == []) || (a == [] && b == [w])
  {
    if a + b == [w] { assert |a| + |b| == 1 && (a + b)[0] == w; }
  }

  lemma {:induction false} SoleWriterIff(scripts: seq<Script>, n: nat, w: ProofWrite)
    requires n <= |scripts|
    ensures WritesOf(scripts, n) == [] <==> forall m | 0 <= m < n :: IsSilent(scripts[m])
    ensures WritesOf(scripts, n) == [w] <==> exists k: nat :: IsSoleWriter(scripts, n, k, w)
    decreases n
  {
    if n > 0 {
      var body := scripts[n - 1];
      SoleWriterIff(scripts, n - 1, w);
      ScriptWrites(body, w);
      SingleOfTwo(WritesOf(scripts, n - 1), WritesIn(body, |body|), w);
      SoleWriterStep(scripts, n - 1, n, w);
    }
  }

  lemma SoleWriterStep(scripts: seq<Script>, n: nat, next: nat, w: ProofWrite)
    requires n < |scripts| && next == n + 1
    ensures (exists k: nat :: IsSoleWriter(scripts, next, k, w)) <==>
      || (IsSilent(scripts[n]) && exists k: nat :: IsSoleWriter(scripts, n, k, w))
      || (IsOnlyWriteOf(scripts[n], w) && forall m | 0 <= m < n :: IsSilent(scripts[m]))
  {
    if k: nat :| IsSoleWriter(scripts, next, k, w) {
      if k < n { assert IsSoleWriter(scripts, n, k, w); }
    }
    if IsSilent(scripts[n]) {
      if k: nat :| IsSoleWriter(scripts, n, k, w) { assert IsSoleWriter(scripts, next, k, w); }
    }
    if IsOnlyWriteOf(scripts[n], w) && forall m | 0 <= m < n :: IsSilent(scripts[m]) {
      assert IsSoleWriter(scripts, next, n, w);
    }
  }
}
