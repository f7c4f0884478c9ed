/** Which status an accepted script writes, and when. */
module ProofFlowMeaning {
  import opened Wrappers
  import opened PythonAst
  import opened PythonEval
  import opened ProofFlow
  import opened ProofFlowSoundness

  // ----- the literal the scan settles on -----

  predicate AssignsDict(s: Stmt, x: string) {
    s.Assign? && s.rhs.Dict? && IsNameListTarget(s, x)
  }

  /** `k` is the last of the first `n` statements that assigns a dict literal to `x`. */
  predicate IsLastLiteral(body: Script, n: nat, x: string, k: nat) {
    && k < n <= |body| && AssignsDict(body[k], x)
    && forall i | k < i < n :: !AssignsDict(body[i], x)
  }

  lemma {:induction false} TableAfterTargets(dicts: DictTable, targets: seq<Expr>, rhs: Expr, x: string)
    ensures
      var table := DictsAfterTargets(dicts, targets, rhs);
      if rhs.Dict? && exists t | t in targets :: IsName(t, x) then x in table && table[x] == rhs.entries
      else (x in table <==> x in dicts) && (x in table ==> table[x] == dicts[x])
    decreases |targets|
  {
    if targets != [] {
      var front, last := targets[..|targets| - 1], targets[|targets| - 1];
      assert targets == front + [last];
      TableAfterTargets(dicts, front, rhs, x);
      assert (exists t | t in targets :: IsName(t, x)) <==> ((exists t | t in front :: IsName(t, x)) || IsName(last, x));
    }
  }

  /** The table of dict literals holds, for each name, its last literal. */
  lemma {:induction false} TableHoldsLastLiteral(body: Script, n: nat, x: string)
    requires n <= |body|
    ensures x in DictsAfter(body, n) ==>
      exists k: nat :: IsLastLiteral(body, n, x, k) && body[k].rhs == Dict(DictsAfter(body, n)[x])
    ensures x !in DictsAfter(body, n) ==> forall k | 0 <= k < n :: !AssignsDict(body[k], x)
    decreases n
  {
    if n > 0 {
      var s := body[n - 1];
      TableHoldsLastLiteral(body, n - 1, x);
      if s.Assign? {
        TableAfterTargets(DictsAfter(body, n - 1), s.targets, s.rhs, x);
      }
      if AssignsDict(s, x) {
        assert IsLastLiteral(body, n, x, n - 1);
      } else if x in DictsAfter(body, n) {
        var k: nat :| IsLastLiteral(body, n - 1, x, k) && body[k].rhs == Dict(DictsAfter(body, n - 1)[x]);
        assert IsLastLiteral(body, n, x, k);
      }
    }
  }

  lemma {:induction false} CapturedStatusIsQemus(entries: seq<Entry>, dicts: DictTable, status: Option<Expr>)
    requires CaptureEntries(entries, dicts, status).Some?
    ensures CaptureEntries(entries, dicts, status) == status
      || ("qemu" in dicts && CaptureEntries(entries, dicts, status) == DictValue(dicts["qemu"], "status"))
    decreases |entries|
  {
    if entries != [] {
      var next := if IsKey(entries[0].key, "qemu") then QemuStatusFrom(entries[0].value, dicts) else status;
      CapturedStatusIsQemus(entries[1..], dicts, next);
    }
  }

  /** What the scan finds at the target `p`. */
  function StatusAt(dicts: DictTable, targets: seq<Expr>, rhs: Expr, p: nat): Option<Expr>
    requires p < |targets|
  {
    ProofCaptureStatus(rhs, DictsAfterTargets(dicts, targets[..p + 1], rhs))
  }

  lemma StatusAtPrefix(dicts: DictTable, targets: seq<Expr>, rhs: Expr, n: nat, q: nat)
    requires q < n <= |targets|
    ensures StatusAt(dicts, targets[..n], rhs, q) == StatusAt(dicts, targets, rhs, q)
  {
    assert targets[..n][..q + 1] == targets[..q + 1];
  }

  lemma StatusAtLast(dicts: DictTable, targets: seq<Expr>, rhs: Expr)
    requires targets != []
    ensures StatusAt(dicts, targets, rhs, |targets| - 1) == ProofCaptureStatus(rhs, DictsAfterTargets(dicts, targets, rhs))
  {
    assert targets[..|targets| - 1 + 1] == targets;
  }

  /** The target that captures: the last `proof` at which the scan finds a status. */
  function CapturingTarget(dicts: DictTable, targets: seq<Expr>, rhs: Expr): (p: nat)
    requires StatementStatus(dicts, targets, rhs).Some?
    ensures p < |targets| && IsName(targets[p], "proof")
    ensures StatementStatus(dicts, targets, rhs) == StatusAt(dicts, targets, rhs, p)
  {
    var n := |targets| - 1;
    StatusAtLast(dicts, targets, rhs);
    if IsName(targets[n], "proof") && StatusAt(dicts, targets, rhs, n).Some? then n
    else
      var p := CapturingTarget(dicts, targets[..n], rhs);
      StatusAtPrefix(dicts, targets, rhs, n, p);
      p
  }

  lemma {:induction false} CapturingTargetIsLast(dicts: DictTable, targets: seq<Expr>, rhs: Expr, q: nat)
    requires StatementStatus(dicts, targets, rhs).Some? && CapturingTarget(dicts, targets, rhs) < q < |targets|
    requires IsName(targets[q], "proof")
    ensures StatusAt(dicts, targets, rhs, q).None?
    decreases |targets|
  {
    var n := |targets| - 1;
    if q < n && !(IsName(targets[n], "proof") && StatusAt(dicts, targets, rhs, n).Some?) {
      StatusAtLast(dicts, targets, rhs);
      CapturingTargetIsLast(dicts, targets[..n], rhs, q);
      StatusAtPrefix(dicts, targets, rhs, n, q);
    }
  }

  /** What the table holds for `qemu` at the target `p`: the statement's own literal if an
      earlier target is `qemu`. */
  lemma TableAtTarget(dicts: DictTable, targets: seq<Expr>, rhs: Expr, p: nat)
    requires p < |targets| && IsName(targets[p], "proof") && rhs.Dict?
    ensures
      var own := exists m | 0 <= m < p :: IsName(targets[m], "qemu");
      var table := DictsAfterTargets(dicts, targets[..p + 1], rhs);
      && ("qemu" in table <==> own || "qemu" in dicts)
      && ("qemu" in table ==> table["qemu"] == if own then rhs.entries else dicts["qemu"])
  {
    var front := targets[..p + 1];
    TableAfterTargets(dicts, front, rhs, "qemu");
    assert (exists t | t in front :: IsName(t, "qemu")) <==> exists m | 0 <= m < p :: IsName(targets[m], "qemu");
  }

  /** The status is the first "status" entry of the literal the table holds for `qemu` at the
      capturing target. */
  lemma StatementStatusIsQemus(dicts: DictTable, targets: seq<Expr>, rhs: Expr)
    requires StatementStatus(dicts, targets, rhs).Some?
    ensures
      var p := CapturingTarget(dicts, targets, rhs);
      var own := exists m | 0 <= m < p :: IsName(targets[m], "qemu");
      && rhs.Dict? && (own || "qemu" in dicts)
      && StatementStatus(dicts, targets, rhs) == DictValue(if own then rhs.entries else dicts["qemu"], "status")
  {
    var p := CapturingTarget(dicts, targets, rhs);
    TableAtTarget(dicts, targets, rhs, p);
    CapturedStatusIsQemus(rhs.entries, DictsAfterTargets(dicts, targets[..p + 1], rhs), None);
  }

  /** Whether a value captures depends on the table only through `qemu`. */
  lemma {:induction false} CaptureDependsOnQemu(
      entries: seq<Entry>, d: DictTable, d': DictTable, status: Option<Expr>, status': Option<Expr>)
    requires CaptureEntries(entries, d, status).Some? && "qemu" in d'
    requires status.Some? ==> status' == DictValue(d'["qemu"], "status")
    ensures CaptureEntries(entries, d', status') == DictValue(d'["qemu"], "status")
    decreases |entries|
  {
    if entries != [] {
      var qemu, value := IsKey(entries[0].key, "qemu"), entries[0].value;
      CaptureDependsOnQemu(
        entries[1..], d, d', if qemu then QemuStatusFrom(value, d) else status,
        if qemu then QemuStatusFrom(value, d') else status');
    }
  }

  predicate QemuBeforeProof(targets: seq<Expr>) {
    exists m, p | 0 <= m < p < |targets| :: IsName(targets[m], "qemu") && IsName(targets[p], "proof")
  }

  /** In the text of the statement: a `qemu` target stands before some `proof` target, and
      the literal assigned has a "status" entry of its own. */
  predicate AssignsQemuFirst(s: Stmt) {
    s.Assign? && s.rhs.Dict? && DictValue(s.rhs.entries, "status").Some? && QemuBeforeProof(s.targets)
  }

  /** The capturing target comes after a `qemu` target exactly for statements of that form. */
  lemma OwnLiteralIff(dicts: DictTable, targets: seq<Expr>, rhs: Expr)
    requires StatementStatus(dicts, targets, rhs).Some?
    ensures (exists m | 0 <= m < CapturingTarget(dicts, targets, rhs) :: IsName(targets[m], "qemu"))
      <==> AssignsQemuFirst(Assign(targets, rhs))
  {
    var p := CapturingTarget(dicts, targets, rhs);
    StatementStatusIsQemus(dicts, targets, rhs);
    if AssignsQemuFirst(Assign(targets, rhs)) && !(exists m | 0 <= m < p :: IsName(targets[m], "qemu")) {
      var m, q :| 0 <= m < q < |targets| && IsName(targets[m], "qemu") && IsName(targets[q], "proof");
      LaterTargetCaptures(dicts, targets, rhs, p, m, q);
      CapturingTargetIsLast(dicts, targets, rhs, q);
    }
  }

  /** Once the statement has assigned `qemu`, a later `proof` captures with its own literal. */
  lemma LaterTargetCaptures(dicts: DictTable, targets: seq<Expr>, rhs: Expr, p: nat, m: nat, q: nat)
    requires p < |targets| && StatusAt(dicts, targets, rhs, p).Some?
    requires m < q < |targets| && IsName(targets[m], "qemu") && IsName(targets[q], "proof")
    ensures rhs.Dict? && StatusAt(dicts, targets, rhs, q) == DictValue(rhs.entries, "status")
  {
    TableAtTarget(dicts, targets, rhs, q);
    CaptureDependsOnQemu(
      rhs.entries, DictsAfterTargets(dicts, targets[..p + 1], rhs), DictsAfterTargets(dicts, targets[..q + 1], rhs), None, None);
  }

  /** The literal that the capture at statement `i` judges is statement `k`'s: its own, if it
      has the form above, else the last one assigned to `qemu` before. */
  predicate IsJudged(body: Script, i: nat, k: nat)
    requires i < |body|
  {
    if AssignsQemuFirst(body[i]) then k == i else IsLastLiteral(body, i, "qemu", k)
  }

  /** The status the scan reports is the first "status" entry of that literal. */
  lemma {:induction false} CaptureReadsJudgedLiteral(body: Script, n: nat)
    requires n <= |body| && CaptureAfter(body, n).Some?
    ensures exists k: nat, lit ::
      && IsJudged(body, CaptureIndex(body, n), k) && body[k].rhs == Dict(lit)
      && DictValue(lit, "status") == Some(CaptureAfter(body, n).value.status)
    decreases n
  {
    if body[n - 1].Assign?
      && StatementStatus(DictsAfter(body, n - 1), body[n - 1].targets, body[n - 1].rhs).Some?
    {
      StatementIsJudged(body, n - 1);
    } else {
      CaptureReadsJudgedLiteral(body, n - 1);
    }
  }

  lemma StatementIsJudged(body: Script, i: nat)
    requires i < |body| && body[i].Assign? && StatementStatus(DictsAfter(body, i), body[i].targets, body[i].rhs).Some?
    ensures exists k: nat, lit ::
      && IsJudged(body, i, k) && body[k].rhs == Dict(lit)
      && DictValue(lit, "status") == StatementStatus(DictsAfter(body, i), body[i].targets, body[i].rhs)
  {
    var s, dicts := body[i], DictsAfter(body, i);
    StatementStatusIsQemus(dicts, s.targets, s.rhs);
    OwnLiteralIff(dicts, s.targets, s.rhs);
    if AssignsQemuFirst(s) {
      assert IsJudged(body, i, i) && body[i].rhs == Dict(s.rhs.entries);
    } else {
      TableHoldsLastLiteral(body, i, "qemu");
      var k: nat :| IsLastLiteral(body, i, "qemu", k) && body[k].rhs == Dict(dicts["qemu"]);
      assert IsJudged(body, i, k);
    }
  }

  /** The capture statement does not have that form. */
  predicate JudgesEarlierLiteral(w: ProofWrite, c: ProofCapture) {
    c.index < |w.script| && !AssignsQemuFirst(w.script[c.index])
  }

  function CaptureIndex(body: Script, n: nat): (i: nat)
    requires n <= |body| && CaptureAfter(body, n).Some?
    ensures i < n && body[i].Assign?
  {
    CaptureIsStatement(body, n);
    CaptureAfter(body, n).value.index
  }

  // ----- the entry Python keeps -----

  predicate IsFirstStatus(lit: seq<Entry>, i: nat) {
    i < |lit| && IsKey(lit[i].key, "status") && forall m | 0 <= m < i :: !IsKey(lit[m].key, "status")
  }

  /** No entry after `l` has the key "status", or a key only known when it is evaluated. */
  predicate NothingReplaces(lit: seq<Entry>, l: nat) {
    forall m | l < m < |lit| :: IsConstantKey(lit[m].key) && !IsKey(lit[m].key, "status")
  }

  predicate IsLastStatus(lit: seq<Entry>, l: nat) {
    l < |lit| && IsKey(lit[l].key, "status") && NothingReplaces(lit, l)
  }

  /** Entry `i` is the first with key "status", and also the last. */
  predicate StatusSettled(lit: seq<Entry>, i: nat) { IsFirstStatus(lit, i) && IsLastStatus(lit, i) }

  /** The entry the analyser judges is the one Python keeps iff "status" occurs once. */
  lemma FirstIsLastIffOnce(lit: seq<Entry>, i: nat, l: nat)
    requires IsFirstStatus(lit, i) && IsLastStatus(lit, l)
    ensures DictValue(lit, "status") == Some(lit[i].value)
    ensures i == l <==> forall m | 0 <= m < |lit| && IsKey(lit[m].key, "status") :: m == i
  {
    DictValueIsFirst(lit, i, "status");
  }

  lemma {:induction false} DictValueIsFirst(lit: seq<Entry>, i: nat, key: string)
    requires i < |lit| && IsKey(lit[i].key, key) && forall m | 0 <= m < i :: !IsKey(lit[m].key, key)
    ensures DictValue(lit, key) == Some(lit[i].value)
  {
    if i > 0 {
      DictValueIsFirst(lit[1..], i - 1, key);
    }
  }

  lemma {:induction false} LaterEntriesKeep(entries: seq<Entry>, acc: map<Value, Value>, st: State, o: Oracle, key: string)
    requires forall m | 0 <= m < |entries| :: IsConstantKey(entries[m].key) && !IsKey(entries[m].key, key)
    requires StrV(key) in acc && EvalEntries(entries, acc, st, o).Some?
    ensures
      var items := EvalEntries(entries, acc, st, o).value.0;
      StrV(key) in items && items[StrV(key)] == acc[StrV(key)]
    decreases |entries|
  {
    if entries != [] {
      var r := EvalEntry(entries[0], acc, st, o).value;
      LaterEntriesKeep(entries[1..], r.0, r.1, o, key);
    }
  }

  /** The state in which entry `i` of a dict display is evaluated. */
  function StateAtEntry(lit: seq<Entry>, i: nat, acc: map<Value, Value>, st: State, o: Oracle): Option<State>
    requires i < |lit|
  {
    match EvalEntries(lit[..i], acc, st, o)
    case None => None
    case Some((_, mid)) => Some(mid)
  }

  /** Python keeps the value of the last "status" entry, as evaluated there. */
  lemma {:induction false} LastStatusIsKept(lit: seq<Entry>, l: nat, acc: map<Value, Value>, st: State, o: Oracle)
    requires IsLastStatus(lit, l) && EvalEntries(lit, acc, st, o).Some?
    ensures StateAtEntry(lit, l, acc, st, o).Some?
    ensures
      var mid := StateAtEntry(lit, l, acc, st, o).value;
      var items := EvalEntries(lit, acc, st, o).value.0;
      Eval(lit[l].value, mid, o).Ok? && StrV("status") in items
      && items[StrV("status")] == Eval(lit[l].value, mid, o).value
    decreases l
  {
    var r := EvalEntry(lit[0], acc, st, o).value;
    if l == 0 {
      LaterEntriesKeep(lit[1..], r.0, r.1, o, "status");
    } else {
      assert lit[1..][..l - 1] == lit[..l][1..];
      LastStatusIsKept(lit[1..], l - 1, r.0, r.1, o);
    }
  }

  // ----- what the run of an accepted script writes -----

  /** Between the literal and the capture, `qemu` still names the literal's object and
      that object's status entry is the one the literal gave it. */
  ghost predicate QemuUndisturbed(lit: seq<Entry>, atLiteral: State, before: State, o: Oracle) {
    match Eval(Dict(lit), atLiteral, o)
    case Raised => false
    case Ok(qemu, made) =>
      && "qemu" in before.env && before.env["qemu"] == qemu
      && qemu.addr in before.heap && before.heap[qemu.addr].DictObj?
      && StrV("status") in before.heap[qemu.addr].items && StrV("status") in made.heap[qemu.addr].items
      && before.heap[qemu.addr].items[StrV("status")] == made.heap[qemu.addr].items[StrV("status")]
  }

  /** The value a conditional on `qemu_usable` has in `mid`. */
  ghost predicate IsChosenBranch(status: Expr, mid: State, o: Oracle, v: Value) {
    && status.IfExp? && "qemu_usable" in mid.env
    && var branch := if Truthy(mid.env["qemu_usable"], mid.heap, o) then status.body else status.orelse;
       Eval(branch, mid, o).Ok? && v == Eval(branch, mid, o).value
  }

  /** `j` shows a status under "qemu", and it is the rendering of `v`. */
  ghost predicate ShowsStatus(j: Json, heap: Heap, v: Value) {
    && j.JDict? && StrV("qemu") in j.members
    && j.members[StrV("qemu")].JDict? && StrV("status") in j.members[StrV("qemu")].members
    && Renders(heap, v, j.members[StrV("qemu")].members[StrV("status")])
  }

  /** The analyser judges the entry that Python keeps. */
  lemma JudgedEntryIsKept(scripts: seq<Script>, w: ProofWrite, c: ProofCapture, k: nat, lit: seq<Entry>, i: nat)
    requires Accepts(scripts, w, c) && JudgesEarlierLiteral(w, c)
    requires IsLastLiteral(w.script, c.index, "qemu", k) && w.script[k].rhs == Dict(lit) && StatusSettled(lit, i)
    ensures lit[i].value == c.status
  {
    CaptureIsStatement(w.script, |w.script|);
    CaptureReadsJudgedLiteral(w.script, |w.script|);
    DictValueIsFirst(lit, i, "status");
  }

  /** Meaning: the status an accepted script writes is the conditional's true branch
      exactly when `qemu_usable` was truthy in `mid`, where the literal evaluated it. */
  lemma AcceptedScriptWritesChosenStatus(
      scripts: seq<Script>, w: ProofWrite, c: ProofCapture, k: nat, lit: seq<Entry>, i: nat,
      initial: State, o: Oracle, before: State, j: Json) returns (mid: State, v: Value)
    requires Accepts(scripts, w, c) && CarriesProof(w, c) && JudgesEarlierLiteral(w, c)
    requires IsLastLiteral(w.script, c.index, "qemu", k) && w.script[k].rhs == Dict(lit) && StatusSettled(lit, i)
    requires RunWrites(w, c, initial, o, before, j)
    requires Run(w.script, k, initial, o).Some? && QemuUndisturbed(lit, Run(w.script, k, initial, o).value, before, o)
    ensures StateAtEntry(lit, i, map[], Run(w.script, k, initial, o).value, o) == Some(mid)
    ensures IsChosenBranch(c.status, mid, o, v)
    ensures ShowsStatus(j, before.heap, v)
  {
    var atLiteral := Run(w.script, k, initial, o).value;
    JudgedEntryIsKept(scripts, w, c, k, lit, i);
    LastStatusIsKept(lit, i, map[], atLiteral, o);
    mid := StateAtEntry(lit, i, map[], atLiteral, o).value;
    v := Eval(lit[i].value, mid, o).value;
    AcceptedScriptShowsQemu(scripts, w, c, initial, o, before, j);
    UndisturbedStatusIsShown(lit, i, atLiteral, before, o, j);
  }

  lemma UndisturbedStatusIsShown(lit: seq<Entry>, i: nat, atLiteral: State, before: State, o: Oracle, j: Json)
    requires StatusSettled(lit, i) && QemuUndisturbed(lit, atLiteral, before, o) && ShowsQemuOf(before, j)
    requires StateAtEntry(lit, i, map[], atLiteral, o).Some?
    ensures
      var made := Eval(lit[i].value, StateAtEntry(lit, i, map[], atLiteral, o).value, o);
      made.Ok? && ShowsStatus(j, before.heap, made.value)
  {
    LastStatusIsKept(lit, i, map[], atLiteral, o);
    var qemu := j.members[StrV("qemu")];
    assert qemu.JDict? && StrV("status") in qemu.members;
  }

  /** With two different strings as branches, the string written tells whether
      `qemu_usable` was truthy. */
  lemma WrittenStringTellsUsability(
      scripts: seq<Script>, w: ProofWrite, c: ProofCapture, k: nat, lit: seq<Entry>, i: nat,
      initial: State, o: Oracle, before: State, j: Json, yes: string, no: string) returns (mid: State)
    requires Accepts(scripts, w, c) && CarriesProof(w, c) && JudgesEarlierLiteral(w, c)
    requires IsLastLiteral(w.script, c.index, "qemu", k) && w.script[k].rhs == Dict(lit) && StatusSettled(lit, i)
    requires RunWrites(w, c, initial, o, before, j)
    requires Run(w.script, k, initial, o).Some? && QemuUndisturbed(lit, Run(w.script, k, initial, o).value, before, o)
    requires c.status == IfExp(Name("qemu_usable"), Const(StrConst(yes)), Const(StrConst(no))) && yes != no
    ensures StateAtEntry(lit, i, map[], Run(w.script, k, initial, o).value, o) == Some(mid)
    ensures "qemu_usable" in mid.env && j.JDict? && StrV("qemu") in j.members
    ensures j.members[StrV("qemu")].JDict? && StrV("status") in j.members[StrV("qemu")].members
    ensures
      var written := j.members[StrV("qemu")].members[StrV("status")];
      && (written == JAtom(StrV(yes)) <==> Truthy(mid.env["qemu_usable"], mid.heap, o))
      && (written == JAtom(StrV(no)) <==> !Truthy(mid.env["qemu_usable"], mid.heap, o))
  {
    var v;
    mid, v := AcceptedScriptWritesChosenStatus(scripts, w, c, k, lit, i, initial, o, before, j);
    RendersUnique(before.heap, v, j.members[StrV("qemu")].members[StrV("status")], JAtom(v));
  }

  /** What the required assignment to `qemu_usable` computes: QEMU was found and its
      version is known. */
  lemma UsableIsAvailableWithVersion(e: Expr, st: State, o: Oracle)
    requires IsQemuUsableExpr(e)
    requires "qemu_available" in st.env && st.env["qemu_available"].BoolV?
    requires "qemu_version" in st.env && st.env["qemu_version"].StrV?
    ensures Eval(e, st, o) == Ok(BoolV(st.env["qemu_available"].b && st.env["qemu_version"].s != ""), st)
  {
    var available, version := e.operands[0], e.operands[1];
    assert Eval(version.comparators[0], st, o) == Ok(StrV(""), st);
    assert EvalChain(st.env["qemu_version"], version.ops, version.comparators, st, o)
      == Ok(BoolV(st.env["qemu_version"].s != ""), st);
    assert Eval(version, st, o) == Ok(BoolV(st.env["qemu_version"].s != ""), st);
    assert Eval(available, st, o) == Ok(st.env["qemu_available"], st);
    assert e.operands[1..] == [version];
    assert EvalBool(And, e.operands[1..], st, o) == Eval(version, st, o);
  }

  /** End to end: if the literal sees the value the required assignment (statement `u`)
      computed, the status written says whether QEMU was found with a version. */
  lemma WrittenStatusReportsQemu(
      scripts: seq<Script>, w: ProofWrite, c: ProofCapture, u: nat, k: nat, lit: seq<Entry>, i: nat,
      initial: State, o: Oracle, at: State, before: State, j: Json, yes: string, no: string)
    requires Accepts(scripts, w, c) && CarriesProof(w, c) && JudgesEarlierLiteral(w, c)
    requires IsLastLiteral(w.script, c.index, "qemu", k) && w.script[k].rhs == Dict(lit) && StatusSettled(lit, i)
    requires RunWrites(w, c, initial, o, before, j)
    requires Run(w.script, k, initial, o).Some? && QemuUndisturbed(lit, Run(w.script, k, initial, o).value, before, o)
    requires c.status == IfExp(Name("qemu_usable"), Const(StrConst(yes)), Const(StrConst(no))) && yes != no
    requires u < k && AssignsUsable(w.script[u]) && Run(w.script, u, initial, o) == Some(at)
    requires "qemu_available" in at.env && at.env["qemu_available"].BoolV?
    requires "qemu_version" in at.env && at.env["qemu_version"].StrV?
    requires
      match StateAtEntry(lit, i, map[], Run(w.script, k, initial, o).value, o)
      case None => true
      case Some(mid) => "qemu_usable" in mid.env && Eval(w.script[u].rhs, at, o).Ok?
                        && mid.env["qemu_usable"] == Eval(w.script[u].rhs, at, o).value
    ensures j.JDict? && StrV("qemu") in j.members
    ensures j.members[StrV("qemu")].JDict? && StrV("status") in j.members[StrV("qemu")].members
    ensures
      j.members[StrV("qemu")].members[StrV("status")]
      == JAtom(StrV(if at.env["qemu_available"].b && at.env["qemu_version"].s != "" then yes else no))
  {
    var _ := WrittenStringTellsUsability(scripts, w, c, k, lit, i, initial, o, before, j, yes, no);
    UsableIsAvailableWithVersion(w.script[u].rhs, at, o);
  }

  // ----- a static way to leave names undisturbed -----

  /** An assignment of a side-effect free value to names other than `x`. */
  predicate IsQuiet(s: Stmt, x: string) {
    s.Assign? && OnlyNames(s.targets) && !IsNameListTarget(s, x) && IsSideEffectFreeCaptureValue(s.rhs)
  }

  lemma {:induction false} QuietStatementsKeep(body: Script, m: nat, n: nat, x: string, initial: State, o: Oracle)
    requires m <= n <= |body| && forall i | m <= i < n :: IsQuiet(body[i], x)
    requires Run(body, n, initial, o).Some?
    ensures Run(body, m, initial, o).Some?
    ensures
      var a, b := Run(body, m, initial, o).value, Run(body, n, initial, o).value;
      Extends(a.heap, b.heap) && (x in a.env ==> x in b.env && b.env[x] == a.env[x])
    decreases n
  {
    if m < n {
      QuietStatementsKeep(body, m, n - 1, x, initial, o);
      var s, st := body[n - 1], Run(body, n - 1, initial, o).value;
      EvalPure(s.rhs, st, o);
      var Ok(v, st1) := Eval(s.rhs, st, o);
      StoreNames(s.targets, v, st1, x, o);
    }
  }

  /** If only quiet statements stand between the literal and the capture, no run
      disturbs `qemu` in between, whatever the oracle. */
  lemma QuietScriptLeavesQemuUndisturbed(
      body: Script, k: nat, n: nat, lit: seq<Entry>, i: nat, initial: State, o: Oracle)
    requires k < n <= |body| && AssignsDict(body[k], "qemu") && OnlyNames(body[k].targets)
    requires body[k].rhs == Dict(lit) && StatusSettled(lit, i)
    requires forall m | k < m < n :: IsQuiet(body[m], "qemu")
    requires Run(body, n, initial, o).Some?
    ensures Run(body, k, initial, o).Some?
    ensures QemuUndisturbed(lit, Run(body, k, initial, o).value, Run(body, n, initial, o).value, o)
  {
    QuietStatementsKeep(body, k + 1, n, "qemu", initial, o);
    var atLiteral := Run(body, k, initial, o).value;
    var Ok(qemu, made) := Eval(body[k].rhs, atLiteral, o);
    StoreNames(body[k].targets, qemu, made, "qemu", o);
    LastStatusIsKept(lit, i, map[], atLiteral, o);
  }

  // ----- scripts that report QEMU in every run -----

  predicate IsQuietEntry(entry: Entry) { IsConstantKey(entry.key) && IsSideEffectFreeCaptureValue(entry.value) }

  lemma {:induction false} QuietEntriesKeep(entries: seq<Entry>, acc: map<Value, Value>, st: State, o: Oracle)
    requires forall m | 0 <= m < |entries| :: IsQuietEntry(entries[m])
    ensures EvalEntries(entries, acc, st, o).Some? ==> OnlyAllocates(st, EvalEntries(entries, acc, st, o).value.1)
    decreases |entries|
  {
    if entries != [] {
      EvalPure(entries[0].value, st, o);
      if EvalEntry(entries[0], acc, st, o).Some? {
        var (acc1, st1) := EvalEntry(entries[0], acc, st, o).value;
        QuietEntriesKeep(entries[1..], acc1, st1, o);
      }
    }
  }

  /** Statement `u` assigns the required expression to `qemu_usable`, which nothing changes
      until entry `i` of the literal at `k`, and nothing disturbs `qemu` from there to `n`. */
  predicate IsStraight(body: Script, u: nat, k: nat, n: nat, lit: seq<Entry>, i: nat) {
    && u < k < n <= |body| && AssignsUsable(body[u]) && OnlyNames(body[u].targets)
    && (forall m | u < m < k :: IsQuiet(body[m], "qemu_usable"))
    && AssignsDict(body[k], "qemu") && OnlyNames(body[k].targets) && body[k].rhs == Dict(lit)
    && StatusSettled(lit, i) && (forall m | 0 <= m < i :: IsQuietEntry(lit[m]))
    && forall m | k < m < n :: IsQuiet(body[m], "qemu")
  }

  /** What the required assignment at `u` computes is in `qemu_usable` up to statement `k`. */
  lemma UsableStaysUntil(body: Script, u: nat, k: nat, initial: State, o: Oracle, at: State)
    requires u < k <= |body| && AssignsUsable(body[u]) && OnlyNames(body[u].targets)
    requires (forall m | u < m < k :: IsQuiet(body[m], "qemu_usable"))
    requires Run(body, k, initial, o).Some? && Run(body, u, initial, o) == Some(at)
    ensures Eval(body[u].rhs, at, o).Ok?
    ensures "qemu_usable" in Run(body, k, initial, o).value.env
    ensures Run(body, k, initial, o).value.env["qemu_usable"] == Eval(body[u].rhs, at, o).value
  {
    QuietStatementsKeep(body, u + 1, k, "qemu_usable", initial, o);
    var Ok(usable, st) := Eval(body[u].rhs, at, o);
    StoreNames(body[u].targets, usable, st, "qemu_usable", o);
  }

  /** Entry `i` of the literal sees the names as they were before the literal. */
  lemma EntrySeesNames(lit: seq<Entry>, i: nat, st: State, o: Oracle)
    requires StatusSettled(lit, i) && (forall m | 0 <= m < i :: IsQuietEntry(lit[m]))
    requires EvalEntries(lit, map[], st, o).Some?
    ensures StateAtEntry(lit, i, map[], st, o).Some? && StateAtEntry(lit, i, map[], st, o).value.env == st.env
  {
    LastStatusIsKept(lit, i, map[], st, o);
    QuietEntriesKeep(lit[..i], map[], st, o);
  }

  lemma LiteralIsEvaluated(body: Script, k: nat, n: nat, lit: seq<Entry>, initial: State, o: Oracle)
    requires k < n <= |body| && body[k].Assign? && body[k].rhs == Dict(lit)
    requires Run(body, n, initial, o).Some?
    ensures Run(body, k, initial, o).Some? && EvalEntries(lit, map[], Run(body, k, initial, o).value, o).Some?
  {
    RunsUpTo(body, k + 1, n, initial, o);
  }

  lemma {:induction false} RunsUpTo(body: Script, m: nat, n: nat, initial: State, o: Oracle)
    requires m <= n <= |body| && Run(body, n, initial, o).Some?
    ensures Run(body, m, initial, o).Some?
    decreases n
  {
    if m < n {
      RunsUpTo(body, m, n - 1, initial, o);
    }
  }

  /** The literal of a straight script sees the value that the required expression had. */
  lemma StraightScriptSeesUsable(
      body: Script, u: nat, k: nat, n: nat, lit: seq<Entry>, i: nat, initial: State, o: Oracle, at: State)
    requires IsStraight(body, u, k, n, lit, i) && Run(body, n, initial, o).Some? && Run(body, u, initial, o) == Some(at)
    ensures Run(body, k, initial, o).Some?
    ensures
      match StateAtEntry(lit, i, map[], Run(body, k, initial, o).value, o)
      case None => false
      case Some(mid) => "qemu_usable" in mid.env && Eval(body[u].rhs, at, o).Ok?
                        && mid.env["qemu_usable"] == Eval(body[u].rhs, at, o).value
  {
    LiteralIsEvaluated(body, k, n, lit, initial, o);
    UsableStaysUntil(body, u, k, initial, o, at);
    EntrySeesNames(lit, i, Run(body, k, initial, o).value, o);
  }

  /** The status a straight accepted script writes says whether QEMU was found with a
      version, in every run and for every oracle. */
  lemma StraightScriptReportsQemu(
      scripts: seq<Script>, w: ProofWrite, c: ProofCapture, u: nat, k: nat, lit: seq<Entry>, i: nat,
      initial: State, o: Oracle, at: State, before: State, j: Json, yes: string, no: string)
    requires Accepts(scripts, w, c) && CarriesProof(w, c) && JudgesEarlierLiteral(w, c)
    requires IsStraight(w.script, u, k, c.index, lit, i)
    requires c.status == IfExp(Name("qemu_usable"), Const(StrConst(yes)), Const(StrConst(no))) && yes != no
    requires RunWrites(w, c, initial, o, before, j) && Run(w.script, u, initial, o) == Some(at)
    requires "qemu_available" in at.env && at.env["qemu_available"].BoolV?
    requires "qemu_version" in at.env && at.env["qemu_version"].StrV?
    ensures j.JDict? && StrV("qemu") in j.members
    ensures j.members[StrV("qemu")].JDict? && StrV("status") in j.members[StrV("qemu")].members
    ensures
      j.members[StrV("qemu")].members[StrV("status")]
      == JAtom(StrV(if at.env["qemu_available"].b && at.env["qemu_version"].s != "" then yes else no))
  {
    QuietScriptLeavesQemuUndisturbed(w.script, k, c.index, lit, i, initial, o);
    StraightScriptSeesUsable(w.script, u, k, c.index, lit, i, initial, o, at);
    WrittenStatusReportsQemu(scripts, w, c, u, k, lit, i, initial, o, at, before, j, yes, no);
  }
}
