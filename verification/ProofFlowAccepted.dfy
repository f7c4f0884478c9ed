/** The accepted scripts, exactly: one write of the proof file, its capture just before it, and
    the assignments that the capture's status rests on. */
module ProofFlowAccepted {
  import opened Wrappers
  import opened PythonAst
  import opened ProofFlow
  import opened ProofFlowSoundness
  import opened ProofFlowMeaning
  import opened ProofFlowShape

  // ----- values without side effects -----

  /** No call and no forbidden node anywhere, and all dict keys are string literals. */
  predicate IsQuietValue(e: Expr)
    decreases e, 1
  {
    match e
    case Name(_) => true
    case Const(_) => true
    case Dict(entries) => forall i | 0 <= i < |entries| :: IsStringKey(entries[i].key) && HasQuietValue(entries[i])
    case BoolOp(_, operands) => AreQuiet(operands)
    case Compare(first, _, comparators) => IsQuietValue(first) && AreQuiet(comparators)
    case IfExp(test, body, orelse) => IsQuietValue(test) && IsQuietValue(body) && IsQuietValue(orelse)
    case Subscript(container, index) => IsQuietValue(container) && IsQuietValue(index)
    case Attribute(owner, _) => IsQuietValue(owner)
    case BinOp(left, _, right) => IsQuietValue(left) && IsQuietValue(right)
    case Display(_, items) => AreQuiet(items)
    case Call(_, _, _) => false
    case Effect(_, _) => false
  }

  predicate AreQuiet(es: seq<Expr>)
    decreases es, 0
  {
    forall i | 0 <= i < |es| :: IsQuietValue(es[i])
  }

  predicate HasQuietValue(entry: Entry)
    decreases entry, 0
  {
    IsQuietValue(entry.value)
  }

  lemma {:induction false} CleanIffQuiet(e: Expr)
    ensures Clean(Walk(e)) <==> IsQuietValue(e)
    decreases e, 1
  {
    CleanSplits([e], Walk(e)[1..]);
    assert e in Walk(e);
    match e
    case Name(_) =>
    case Const(_) =>
    case Dict(entries) => if LiteralKeysOnly(e) { EntriesCleanIffQuiet(entries); }
    case BoolOp(_, operands) => AllCleanIffQuiet(operands);
    case Compare(first, _, comparators) => CleanIffQuiet(first); AllCleanIffQuiet(comparators); CleanSplits(Walk(first), WalkAll(comparators));
    case IfExp(test, body, orelse) =>
      CleanIffQuiet(test);
      CleanIffQuiet(body);
      CleanIffQuiet(orelse);
      CleanSplits(Walk(test) + Walk(body), Walk(orelse));
      CleanSplits(Walk(test), Walk(body));
    case Subscript(container, index) => CleanIffQuiet(container); CleanIffQuiet(index); CleanSplits(Walk(container), Walk(index));
    case Attribute(owner, _) => CleanIffQuiet(owner);
    case BinOp(left, _, right) => CleanIffQuiet(left); CleanIffQuiet(right); CleanSplits(Walk(left), Walk(right));
    case Display(_, items) => AllCleanIffQuiet(items);
    case Call(_, _, _) =>
    case Effect(_, _) =>
  }

  lemma CleanSplits(a: seq<Expr>, b: seq<Expr>)
    ensures Clean(a + b) <==> Clean(a) && Clean(b)
  {
    if Clean(a + b) {
      forall x | x in a ensures !IsForbidden(x) && LiteralKeysOnly(x) { assert x in a + b; }
      forall x | x in b ensures !IsForbidden(x) && LiteralKeysOnly(x) { assert x in a + b; }
    }
  }

  lemma {:induction false} AllCleanIffQuiet(es: seq<Expr>)
    ensures Clean(WalkAll(es)) <==> AreQuiet(es)
    decreases es, 0
  {
    if es != [] {
      CleanIffQuiet(es[0]);
      AllCleanIffQuiet(es[1..]);
      CleanSplits(Walk(es[0]), WalkAll(es[1..]));
      assert es == [es[0]] + es[1..];
    }
  }

  lemma {:induction false} EntriesCleanIffQuiet(entries: seq<Entry>)
    requires forall i | 0 <= i < |entries| :: IsStringKey(entries[i].key)
    ensures Clean(WalkEntries(entries)) <==> forall i | 0 <= i < |entries| :: HasQuietValue(entries[i])
    decreases entries, 0
  {
    if entries != [] {
      EntryCleanIffQuiet(entries[0]);
      EntriesCleanIffQuiet(entries[1..]);
      CleanSplits(WalkEntry(entries[0]), WalkEntries(entries[1..]));
      assert entries == [entries[0]] + entries[1..];
    }
  }

  lemma {:induction false} EntryCleanIffQuiet(entry: Entry)
    requires IsStringKey(entry.key)
    ensures Clean(WalkEntry(entry)) <==> HasQuietValue(entry)
    decreases entry, 0
  {
    CleanIffQuiet(entry.value);
    CleanIffQuiet(entry.key.value);
    CleanSplits(Walk(entry.key.value), Walk(entry.value));
  }

  /** The test walks all nodes; it is the one that follows the structure. */
  lemma SideEffectFreeIff(e: Expr)
    ensures IsSideEffectFreeCaptureValue(e) <==> IsQuietValue(e)
  {
    CleanIffQuiet(e);
  }

  // ----- captures -----

  /** The value of the first "status" entry of a literal. */
  predicate HasFirstStatus(lit: seq<Entry>, v: Expr) {
    exists i | 0 <= i < |lit| :: IsFirstStatus(lit, i) && lit[i].value == v
  }

  /** All keys are string literals, "qemu" is given the name `qemu`, and other values are quiet. */
  predicate IsCaptureEntry(entry: Entry) {
    IsStringKey(entry.key) && if IsKey(entry.key, "qemu") then entry.value == Name("qemu") else IsQuietValue(entry.value)
  }

  predicate AreCaptureEntries(entries: seq<Entry>) {
    forall i | 0 <= i < |entries| :: IsCaptureEntry(entries[i])
  }

  predicate NamesQemu(entries: seq<Entry>) {
    exists i | 0 <= i < |entries| :: IsKey(entries[i].key, "qemu")
  }

  lemma {:induction false} DictValueIff(lit: seq<Entry>, v: Expr)
    ensures DictValue(lit, "status") == Some(v) <==> HasFirstStatus(lit, v)
    decreases |lit|
  {
    if lit != [] {
      DictValueIff(lit[1..], v);
      if IsKey(lit[0].key, "status") {
        assert IsFirstStatus(lit, 0);
      } else {
        if i: nat :| IsFirstStatus(lit[1..], i) && lit[1..][i].value == v { assert IsFirstStatus(lit, i + 1); }
        if i: nat :| IsFirstStatus(lit, i) && lit[i].value == v { assert IsFirstStatus(lit[1..], i - 1); }
      }
    }
  }

  lemma {:induction false} CaptureEntriesIff(entries: seq<Entry>, dicts: DictTable, status: Option<Expr>)
    ensures CaptureEntries(entries, dicts, status) ==
      if !AreCaptureEntries(entries) then None
      else if !NamesQemu(entries) then status
      else if "qemu" in dicts then DictValue(dicts["qemu"], "status")
      else None
    decreases |entries|
  {
    if entries != [] {
      var rest := entries[1..];
      assert entries == [entries[0]] + rest;
      SideEffectFreeIff(entries[0].value);
      CaptureEntriesIff(rest, dicts, status);
      CaptureEntriesIff(rest, dicts, QemuStatusFrom(Name("qemu"), dicts));
      CaptureEntriesSplit(entries[0], rest);
    }
  }

  lemma CaptureEntriesSplit(entry: Entry, rest: seq<Entry>)
    ensures AreCaptureEntries([entry] + rest) <==> IsCaptureEntry(entry) && AreCaptureEntries(rest)
    ensures NamesQemu([entry] + rest) <==> IsKey(entry.key, "qemu") || NamesQemu(rest)
  {
    var all := [entry] + rest;
    assert all[0] == entry && forall i | 0 <= i < |rest| :: all[i + 1] == rest[i];
    forall i | 0 < i < |all| ensures all[i] == rest[i - 1] {}
  }

  /** At the target `p`, statement `i` captures the status `v`: the first of its own literal if
      it has assigned `qemu` already, else of the last literal assigned to `qemu` before. */
  predicate CapturesAt(body: Script, i: nat, p: nat, v: Expr)
    requires i < |body|
  {
    && body[i].Assign? && p < |body[i].targets| && body[i].targets[p] == Name("proof")
    && body[i].rhs.Dict? && AreCaptureEntries(body[i].rhs.entries) && NamesQemu(body[i].rhs.entries)
    && if AssignedBefore(body[i].targets, p) then HasFirstStatus(body[i].rhs.entries, v)
       else exists k | 0 <= k < i :: IsLastLiteral(body, i, "qemu", k) && HasFirstStatus(body[k].rhs.entries, v)
  }

  predicate AssignedBefore(targets: seq<Expr>, p: nat)
    requires p < |targets|
  {
    exists m | 0 <= m < p :: targets[m] == Name("qemu")
  }

  lemma LastLiteralIsUnique(body: Script, n: nat, x: string, k: nat, m: nat)
    requires IsLastLiteral(body, n, x, k) && IsLastLiteral(body, n, x, m)
    ensures k == m
  {}

  lemma TableStatusIff(body: Script, n: nat, v: Expr)
    requires n <= |body|
    ensures ("qemu" in DictsAfter(body, n) && HasFirstStatus(DictsAfter(body, n)["qemu"], v))
      <==> exists k | 0 <= k < n :: IsLastLiteral(body, n, "qemu", k) && HasFirstStatus(body[k].rhs.entries, v)
  {
    TableHoldsLastLiteral(body, n, "qemu");
    if k: nat :| IsLastLiteral(body, n, "qemu", k) && HasFirstStatus(body[k].rhs.entries, v) {
      var m: nat :| IsLastLiteral(body, n, "qemu", m) && body[m].rhs == Dict(DictsAfter(body, n)["qemu"]);
      LastLiteralIsUnique(body, n, "qemu", k, m);
    }
  }

  lemma StatusAtIff(body: Script, i: nat, p: nat, v: Expr)
    requires i < |body| && body[i].Assign? && p < |body[i].targets| && IsName(body[i].targets[p], "proof")
    ensures StatusAt(DictsAfter(body, i), body[i].targets, body[i].rhs, p) == Some(v) <==> CapturesAt(body, i, p, v)
  {
    var targets, rhs, dicts := body[i].targets, body[i].rhs, DictsAfter(body, i);
    if rhs.Dict? {
      TableAtTarget(dicts, targets, rhs, p);
      var table := DictsAfterTargets(dicts, targets[..p + 1], rhs);
      CaptureEntriesIff(rhs.entries, table, None);
      TableStatusIff(body, i, v);
      if "qemu" in table { DictValueIff(table["qemu"], v); }
    }
  }

  ghost predicate NoCaptureFrom(body: Script, i: nat, q: nat)
    requires i < |body|
  {
    forall p: nat, v | q <= p :: !CapturesAt(body, i, p, v)
  }

  ghost predicate CapturesLastAt(body: Script, i: nat, p: nat, v: Expr)
    requires i < |body|
  {
    CapturesAt(body, i, p, v) && NoCaptureFrom(body, i, p + 1)
  }

  /** Statement `i` captures the status `v`: that of its last target to capture. */
  ghost predicate Captures(body: Script, i: nat, v: Expr)
    requires i < |body|
  {
    exists p: nat :: CapturesLastAt(body, i, p, v)
  }

  lemma {:induction false} NoTargetCaptures(dicts: DictTable, targets: seq<Expr>, rhs: Expr, p: nat)
    requires StatementStatus(dicts, targets, rhs).None? && p < |targets| && IsName(targets[p], "proof")
    ensures StatusAt(dicts, targets, rhs, p).None?
    decreases |targets|
  {
    var n := |targets| - 1;
    StatusAtLast(dicts, targets, rhs);
    if p < n {
      NoTargetCaptures(dicts, targets[..n], rhs, p);
      StatusAtPrefix(dicts, targets, rhs, n, p);
    }
  }

  lemma SilentStatement(body: Script, i: nat)
    requires i < |body| && body[i].Assign?
    requires StatementStatus(DictsAfter(body, i), body[i].targets, body[i].rhs).None?
    ensures NoCaptureFrom(body, i, 0)
  {
    forall p: nat, v | CapturesAt(body, i, p, v) ensures false {
      NoTargetCaptures(DictsAfter(body, i), body[i].targets, body[i].rhs, p);
      StatusAtIff(body, i, p, v);
    }
  }

  lemma CapturingStatement(body: Script, i: nat) returns (p: nat)
    requires i < |body| && body[i].Assign?
    requires StatementStatus(DictsAfter(body, i), body[i].targets, body[i].rhs).Some?
    ensures CapturesLastAt(body, i, p, StatementStatus(DictsAfter(body, i), body[i].targets, body[i].rhs).value)
  {
    var dicts, targets, rhs := DictsAfter(body, i), body[i].targets, body[i].rhs;
    p := CapturingTarget(dicts, targets, rhs);
    StatusAtIff(body, i, p, StatementStatus(dicts, targets, rhs).value);
    forall q: nat, v | p + 1 <= q && CapturesAt(body, i, q, v) ensures false {
      CapturingTargetIsLast(dicts, targets, rhs, q);
      StatusAtIff(body, i, q, v);
    }
  }

  lemma LastCaptureIsUnique(body: Script, i: nat, p: nat, v: Expr, q: nat, u: Expr)
    requires i < |body| && CapturesLastAt(body, i, p, v) && CapturesLastAt(body, i, q, u)
    ensures p == q && v == u
  {
    StatusAtIff(body, i, p, v);
    StatusAtIff(body, i, q, u);
    assert !(q + 1 <= p) && !(p + 1 <= q);
  }

  /** What the scan finds at a statement. */
  lemma StatementCapturesIff(body: Script, i: nat, v: Expr)
    requires i < |body|
    ensures Captures(body, i, v)
      <==> body[i].Assign? && StatementStatus(DictsAfter(body, i), body[i].targets, body[i].rhs) == Some(v)
  {
    if body[i].Assign? {
      var status := StatementStatus(DictsAfter(body, i), body[i].targets, body[i].rhs);
      if status.None? {
        SilentStatement(body, i);
      } else {
        var p := CapturingStatement(body, i);
        if q: nat :| CapturesLastAt(body, i, q, v) { LastCaptureIsUnique(body, i, p, status.value, q, v); }
      }
    }
  }

  /** The capture `c` is that of the last of the first `n` statements that captures. */
  ghost predicate IsLastCapture(body: Script, n: nat, c: ProofCapture)
    requires n <= |body|
  {
    c.index < n && Captures(body, c.index, c.status) && forall m, v | c.index < m < n :: !Captures(body, m, v)
  }

  /** The scan reports exactly that capture. */
  lemma {:induction false} LastCaptureIff(body: Script, n: nat, c: ProofCapture)
    requires n <= |body|
    ensures CaptureAfter(body, n) == Some(c) <==> IsLastCapture(body, n, c)
    decreases n
  {
    if n > 0 {
      LastCaptureIff(body, n - 1, c);
      LastCaptureStep(body, n - 1, c);
    }
  }

  lemma LastCaptureStep(body: Script, n: nat, c: ProofCapture)
    requires n < |body|
    ensures
      var status := if body[n].Assign? then StatementStatus(DictsAfter(body, n), body[n].targets, body[n].rhs) else None;
      IsLastCapture(body, n + 1, c)
      <==> if status.Some? then c == ProofCapture(n, status.value) else IsLastCapture(body, n, c)
  {
    forall v ensures Captures(body, n, v)
      <==> body[n].Assign? && StatementStatus(DictsAfter(body, n), body[n].targets, body[n].rhs) == Some(v)
    {
      StatementCapturesIff(body, n, v);
    }
  }

  // ----- acceptance -----

  /** `qemu_available and qemu_version != ""` */
  const AVAILABLE_WITH_VERSION: Expr :=
    BoolOp(And, [Name("qemu_available"), Compare(Name("qemu_version"), [NotEq], [Const(StrConst(""))])])

  /** Some statement assigns that to `qemu_usable`. */
  predicate DecidesSomewhere(body: Script) {
    exists u | 0 <= u < |body| ::
      body[u].Assign? && Name("qemu_usable") in body[u].targets && body[u].rhs == AVAILABLE_WITH_VERSION
  }

  lemma UsableExprIff(e: Expr)
    ensures IsQemuUsableExpr(e) <==> e == AVAILABLE_WITH_VERSION
  {
    if IsQemuUsableExpr(e) {
      var version := e.operands[1];
      assert version.comparators == [Const(StrConst(""))];
      assert version == Compare(Name("qemu_version"), [NotEq], [Const(StrConst(""))]);
      assert e.operands == [Name("qemu_available"), version];
    }
  }

  lemma DecidesIff(body: Script)
    ensures (exists s | s in body :: AssignsUsable(s)) <==> DecidesSomewhere(body)
  {
    forall s | s in body && s.Assign?
      ensures AssignsUsable(s) <==> Name("qemu_usable") in s.targets && s.rhs == AVAILABLE_WITH_VERSION
    {
      UsableExprIff(s.rhs);
    }
    if DecidesSomewhere(body) {
      var u :| 0 <= u < |body| && body[u].Assign? && Name("qemu_usable") in body[u].targets
        && body[u].rhs == AVAILABLE_WITH_VERSION;
      assert body[u] in body && AssignsUsable(body[u]);
    }
  }

  predicate ChoosesByUsable(status: Expr) { status.IfExp? && status.test == Name("qemu_usable") }

  /** Exactly which inputs are accepted. */
  lemma AcceptsIff(scripts: seq<Script>, w: ProofWrite, c: ProofCapture)
    ensures Accepts(scripts, w, c) <==>
      && (exists k: nat :: IsSoleWriter(scripts, |scripts|, k, w))
      && IsLastCapture(w.script, |w.script|, c) && w.index == c.index + 1 == |w.script| - 1
      && ChoosesByUsable(c.status) && DecidesSomewhere(w.script)
  {
    SoleWriterIff(scripts, |scripts|, w);
    LastCaptureIff(w.script, |w.script|, c);
    DecidesIff(w.script);
  }

  // ----- scripts of the workflow's shape -----

  /** The last statement is the canonical write by `receiver`, and the only one. */
  ghost predicate EndsInWriteTo(body: Script, receiver: Expr) {
    && body != [] && body[|body| - 1] == WriteBy(receiver, BoolConst(true)) && GoesToProof(body, |body| - 1, receiver)
    && forall i | 0 <= i < |body| - 1 :: !IsProofWrite(body, i)
  }

  lemma WriteIsOnly(body: Script, receiver: Expr) returns (w: ProofWrite)
    requires EndsInWriteTo(body, receiver)
    ensures w == ProofWrite(body, |body| - 1, WriteBy(receiver, BoolConst(true)).expr)
    ensures IsSoleWriter([body], 1, 0, w)
  {
    var yes := BoolConst(true);
    w := ProofWrite(body, |body| - 1, WriteBy(receiver, yes).expr);
    assert IsProofWrite(body, |body| - 1);
  }

  lemma PlainCaptureIsLast(body: Script, k: nat, status: Expr, entries: seq<Entry>)
    requires |body| >= 2 && !body[|body| - 1].Assign?
    requires IsLastLiteral(body, |body| - 2, "qemu", k) && HasFirstStatus(body[k].rhs.entries, status)
    requires body[|body| - 2] == Assign([Name("proof")], Dict(entries)) && AreCaptureEntries(entries) && NamesQemu(entries)
    ensures IsLastCapture(body, |body|, ProofCapture(|body| - 2, status))
  {
    assert CapturesAt(body, |body| - 2, 0, status);
    assert CapturesLastAt(body, |body| - 2, 0, status);
  }

  /** A decision, the literal `k` with its status, and at the end the capture and the write:
      such a script has that one write and is accepted. */
  lemma ShapeIsAccepted(body: Script, receiver: Expr, k: nat, status: Expr, entries: seq<Entry>)
      returns (w: ProofWrite, c: ProofCapture)
    requires EndsInWriteTo(body, receiver) && |body| >= 2 && DecidesSomewhere(body)
    requires IsLastLiteral(body, |body| - 2, "qemu", k) && HasFirstStatus(body[k].rhs.entries, status) && ChoosesByUsable(status)
    requires body[|body| - 2] == Assign([Name("proof")], Dict(entries)) && AreCaptureEntries(entries) && NamesQemu(entries)
    ensures w == ProofWrite(body, |body| - 1, WriteBy(receiver, BoolConst(true)).expr)
    ensures c == ProofCapture(|body| - 2, status) && WritesOf([body], 1) == [w] && Accepts([body], w, c)
  {
    w := WriteIsOnly(body, receiver);
    c := ProofCapture(|body| - 2, status);
    SoleWriterIff([body], 1, w);
    PlainCaptureIsLast(body, k, status, entries);
    AcceptsIff([body], w, c);
  }

  /** Statement `p` assigns the proof file's path to `x`, which is assigned no other path. */
  ghost predicate AssignsProofPath(body: Script, x: string, p: nat) {
    && p < |body| - 1 && body[p] == Assign([Name(x)], Call(Name("Path"), [Const(StrConst(RUNNER_PROOF_PATH))], []))
    && NoPathSince(body, p + 1, |body| - 1, x)
  }

  lemma PathGoesToProof(body: Script, x: string, p: nat)
    requires AssignsProofPath(body, x, p)
    ensures GoesToProof(body, |body| - 1, Name(x))
  {
    var path := RUNNER_PROOF_PATH;
    assert PathExpr(path, [[]]) == Call(Name("Path"), [PathExpr(path, [])], []);
    assert AssignsPath(body[p], x, path);
    assert IsLastPath(body, |body| - 1, x, path);
  }

  /** The workflow's shape: `x = Path(...)` and at the end the dump of `proof` written by `x`. */
  lemma WorkflowShapeIsAccepted(body: Script, x: string, p: nat, k: nat, status: Expr, entries: seq<Entry>)
      returns (w: ProofWrite, c: ProofCapture)
    requires AssignsProofPath(body, x, p) && |body| >= 2 && DecidesSomewhere(body)
    requires body[|body| - 1] == WriteBy(Name(x), BoolConst(true)) && forall i | 0 <= i < |body| - 1 :: !IsProofWrite(body, i)
    requires IsLastLiteral(body, |body| - 2, "qemu", k) && HasFirstStatus(body[k].rhs.entries, status) && ChoosesByUsable(status)
    requires body[|body| - 2] == Assign([Name("proof")], Dict(entries)) && AreCaptureEntries(entries) && NamesQemu(entries)
    ensures w == ProofWrite(body, |body| - 1, WriteBy(Name(x), BoolConst(true)).expr)
    ensures c == ProofCapture(|body| - 2, status) && WritesOf([body], 1) == [w] && Accepts([body], w, c)
  {
    PathGoesToProof(body, x, p);
    w, c := ShapeIsAccepted(body, Name(x), k, status, entries);
  }

  // ----- what is rejected -----

  predicate AssignsProof(s: Stmt) { s.Assign? && s.rhs.Dict? && Name("proof") in s.targets }

  /** An accepted script ends in an assignment to `proof` and the write. */
  lemma AcceptedEnds(scripts: seq<Script>, w: ProofWrite, c: ProofCapture)
    requires Accepts(scripts, w, c)
    ensures w.script in scripts && w.index == |w.script| - 1 && c.index == |w.script| - 2
    ensures AssignsProof(w.script[c.index]) && IsProofWrite(w.script, w.index)
  {
    AcceptsIff(scripts, w, c);
    var k: nat :| IsSoleWriter(scripts, |scripts|, k, w);
    var p: nat :| CapturesLastAt(w.script, c.index, p, c.status);
    assert w.script[c.index].targets[p] in w.script[c.index].targets;
  }

  /** Whatever else stands in a script, anything between the capture and the write is rejected. */
  lemma InsertedStatementIsRejected(front: Script, s: Stmt, write: Stmt)
    requires !AssignsProof(s)
    ensures forall w, c :: !Accepts([front + [s, write]], w, c)
  {
    var body := front + [s, write];
    assert body[|body| - 2] == s;
    forall w, c ensures !Accepts([body], w, c) {
      if Accepts([body], w, c) { AcceptedEnds([body], w, c); }
    }
  }

  /** The argument of the write, with something evaluated before the dump. */
  function Mutated(mutation: Expr, dump: Expr): Expr {
    BinOp(BoolOp(Or, [mutation, dump]), Add, Const(StrConst("\n")))
  }

  /** A last statement that writes anything but the dump itself is rejected. */
  lemma MutatedWriteIsRejected(front: Script, receiver: Expr, mutation: Expr, dump: Expr)
    ensures
      var write := ExprStmt(Call(Attribute(receiver, "write_text"), [Mutated(mutation, dump)], []));
      forall w, c :: !Accepts([front + [write]], w, c)
  {
    var write := ExprStmt(Call(Attribute(receiver, "write_text"), [Mutated(mutation, dump)], []));
    var body := front + [write];
    assert !IsProofWrite(body, |body| - 1) by { assert body[|body| - 1] == write; }
    forall w, c ensures !Accepts([body], w, c) {
      if Accepts([body], w, c) { AcceptedEnds([body], w, c); }
    }
  }
}
