/** Accepted scripts that mislead, each with a run that shows it. */
module ProofFlowWitnesses {
  import opened Wrappers
  import opened PythonAst
  import opened PythonEval
  import opened PythonFiles
  import opened ProofFlow
  import opened ProofFlowSoundness
  import opened ProofFlowMeaning
  import opened ProofFlowLimits
  import opened ProofFlowShape
  import opened ProofFlowAccepted

  // ----- a family of accepted scripts -----

  const USABLE: Expr := AVAILABLE_WITH_VERSION
  const STATUS: Expr := IfExp(Name("qemu_usable"), Const(StrConst("available")), Const(StrConst("unavailable")))
  const CAPTURE: Expr := Dict([Entry(Some(Const(StrConst("qemu"))), Name("qemu"))])
  const PROOF_PATH: Expr := Call(Name("Path"), [Const(StrConst(RUNNER_PROOF_PATH))], [])
  const WRITE: Expr := WriteBy(PROOF_PATH, BoolConst(true)).expr

  function StatusEntry(status: Expr): Entry { Entry(Some(Const(StrConst("status"))), status) }

  /** `qemu_usable = ...`, `qemu = {...}`, `proof = ... = {"qemu": qemu}` and the write. */
  function Witness(lit: seq<Entry>, targets: seq<Expr>): Script {
    [Assign([Name("qemu_usable")], USABLE), Assign([Name("qemu")], Dict(lit)), Assign(targets, CAPTURE), ExprStmt(WRITE)]
  }

  lemma CaptureIsAccepted(dicts: DictTable)
    requires "qemu" in dicts && DictValue(dicts["qemu"], "status").Some?
    ensures ProofCaptureStatus(CAPTURE, dicts) == DictValue(dicts["qemu"], "status")
  {
    assert CAPTURE.entries[1..] == [];
    assert CaptureEntries([], dicts, QemuStatusFrom(Name("qemu"), dicts)) == DictValue(dicts["qemu"], "status");
  }

  /** `proof` and possibly more targets that are not names. */
  predicate ProofFirst(targets: seq<Expr>) {
    |targets| > 0 && targets[0] == Name("proof") && forall i | 0 < i < |targets| :: !targets[i].Name?
  }

  lemma {:induction false} StatementStatusOfWitness(dicts: DictTable, targets: seq<Expr>)
    requires "qemu" in dicts && DictValue(dicts["qemu"], "status").Some? && ProofFirst(targets)
    ensures StatementStatus(dicts, targets, CAPTURE) == DictValue(dicts["qemu"], "status")
    decreases |targets|
  {
    if |targets| == 1 {
      TableAfterTargets(dicts, targets, CAPTURE, "qemu");
      CaptureIsAccepted(DictsAfterTargets(dicts, targets, CAPTURE));
    } else {
      StatementStatusOfWitness(dicts, targets[..|targets| - 1]);
    }
  }

  lemma {:induction false} AssignmentsWriteNothing(body: Script, n: nat)
    requires n <= |body| && forall i | 0 <= i < n :: body[i].Assign?
    ensures WritesIn(body, n) == []
  {
    if n > 0 { AssignmentsWriteNothing(body, n - 1); }
  }

  /** Assignments, and the canonical write at the end. */
  predicate EndsInWrite(body: Script) {
    body != [] && body[|body| - 1] == ExprStmt(WRITE) && forall i | 0 <= i < |body| - 1 :: body[i].Assign?
  }

  lemma WitnessWrites(body: Script)
    requires EndsInWrite(body)
    ensures WritesOf([body], 1) == [ProofWrite(body, |body| - 1, WRITE)]
  {
    var n := |body| - 1;
    AssignmentsWriteNothing(body, n);
    WriteIsCanonical(PathsAfter(body, n));
    assert WritesOf([body], 0) == [];
  }

  lemma WriteIsCanonical(paths: map<string, string>)
    ensures IsWriteStatement(ExprStmt(WRITE), paths) && IsPlainReceiver(WRITE.func.owner)
  {
    assert PathLiteral(WRITE.func.owner.args[0]) == Some(RUNNER_PROOF_PATH);
  }

  /** A run that ends with `j` in `proof` puts it in the file. */
  lemma RunPutsProof(w: ProofWrite, c: ProofCapture, initial: State, o: Oracle, before: State, final: State, j: Json)
    requires w.call == WRITE && c.index <= w.index <= |w.script|
    requires Run(w.script, c.index, initial, o) == Some(before) && Closed(before)
    requires Run(w.script, w.index, initial, o) == Some(final) && Writes(final, j)
    ensures RunWrites(w, c, initial, o, before, j)
  {
    WriteIsCanonical(map[]);
    CanonicalWritePutsProof(WRITE, map[], final, o, j);
    assert RunPuts(w, c, initial, o, before, Put(WRITE, final, o).value.0, [Dumped(j), Plain("\n")]);
  }

  lemma {:induction false} CapturedIsAccepted(body: Script, u: nat, status: Expr)
    requires |body| >= 2 && EndsInWrite(body) && u < |body| && AssignsUsable(body[u])
    requires CaptureAfter(body, |body| - 1) == Some(ProofCapture(|body| - 2, status))
    requires status.IfExp? && IsName(status.test, "qemu_usable")
    ensures Accepts([body], ProofWrite(body, |body| - 1, WRITE), ProofCapture(|body| - 2, status))
  {
    WitnessWrites(body);
    assert body[u] in body;
  }

  lemma WitnessCapture(lit: seq<Entry>, targets: seq<Expr>)
    requires DictValue(lit, "status") == Some(STATUS) && ProofFirst(targets)
    ensures CaptureAfter(Witness(lit, targets), 3) == Some(ProofCapture(2, STATUS))
  {
    var body := Witness(lit, targets);
    assert IsName(body[1].targets[0], "qemu");
    TableAfterTargets(DictsAfter(body, 1), body[1].targets, body[1].rhs, "qemu");
    StatementStatusOfWitness(DictsAfter(body, 2), targets);
  }

  lemma WitnessIsAccepted(lit: seq<Entry>, targets: seq<Expr>)
    requires DictValue(lit, "status") == Some(STATUS) && ProofFirst(targets)
    ensures Accepts([Witness(lit, targets)], ProofWrite(Witness(lit, targets), 3, WRITE), ProofCapture(2, STATUS))
  {
    var body := Witness(lit, targets);
    WitnessCapture(lit, targets);
    assert IsName(body[0].targets[0], "qemu_usable");
    CapturedIsAccepted(body, 0, STATUS);
  }

  // ----- accepted scripts that mislead -----

  const ONE_STATUS: seq<Entry> := [StatusEntry(STATUS)]
  const TWO_STATUSES: seq<Entry> := [StatusEntry(STATUS), StatusEntry(Const(StrConst("unavailable")))]
  const START: State := State(map["qemu_available" := BoolV(true), "qemu_version" := StrV("8.2.0")], map[], 0)
  const DECIDED: State := START.(env := START.env["qemu_usable" := BoolV(true)])

  /** The state just before the capture, when the literal's status came out as `status`. */
  function Ready(status: string): State {
    State(DECIDED.env["qemu" := Ref(0)], map[0 := DictObj(map[StrV("status") := StrV(status)])], 0)
  }

  lemma ExecName(x: string, rhs: Expr, st: State, o: Oracle := MEDDLER)
    requires Eval(rhs, st, o).Ok?
    ensures
      var Ok(v, st1) := Eval(rhs, st, o);
      Exec(Assign([Name(x)], rhs), st, o) == Some(st1.(env := st1.env[x := v]))
  {
    var Ok(v, st1) := Eval(rhs, st, o);
    assert [Name(x)][1..] == [];
    assert Store([], v, st1.(env := st1.env[x := v]), o) == Some(st1.(env := st1.env[x := v]));
  }

  lemma ReadyAfter(body: Script, lit: seq<Entry>, status: string, o: Oracle := MEDDLER)
    requires |body| >= 2 && body[0] == Assign([Name("qemu_usable")], USABLE) && body[1] == Assign([Name("qemu")], Dict(lit))
    requires Eval(Dict(lit), DECIDED, o) == Ok(Ref(0), Ready(status).(env := DECIDED.env))
    ensures Run(body, 1, START, o) == Some(DECIDED)
    ensures Run(body, 2, START, o) == Some(Ready(status)) && Closed(Ready(status))
  {
    UsableIsAvailableWithVersion(USABLE, START, o);
    ExecName("qemu_usable", USABLE, START, o);
    ExecName("qemu", Dict(lit), DECIDED, o);
    assert Run(body, 0, START, o) == Some(START);
  }

  lemma LiteralsEvaluate(o: Oracle := MEDDLER)
    requires o.alloc == MEDDLER.alloc
    ensures Eval(Dict(ONE_STATUS), DECIDED, o) == Ok(Ref(0), Ready("available").(env := DECIDED.env))
    ensures Eval(Dict(TWO_STATUSES), DECIDED, o) == Ok(Ref(0), Ready("unavailable").(env := DECIDED.env))
  {
    var one := map[StrV("status") := StrV("available")];
    assert Eval(STATUS, DECIDED, o) == Ok(StrV("available"), DECIDED);
    assert EvalEntry(StatusEntry(STATUS), map[], DECIDED, o) == Some((one, DECIDED));
    assert ONE_STATUS[1..] == [] && TWO_STATUSES[1..] == [TWO_STATUSES[1]] && TWO_STATUSES[1..][1..] == [];
    assert EvalEntries(ONE_STATUS, map[], DECIDED, o) == Some((one, DECIDED));
    var two := map[StrV("status") := StrV("unavailable")];
    assert one[StrV("status") := StrV("unavailable")] == two;
    assert EvalEntry(TWO_STATUSES[1], one, DECIDED, o) == Some((two, DECIDED));
    assert EvalEntries(TWO_STATUSES[1..], one, DECIDED, o) == Some((two, DECIDED));
    assert EvalEntries(TWO_STATUSES, map[], DECIDED, o) == Some((two, DECIDED));
  }

  lemma CaptureEvaluates(status: string, o: Oracle := MEDDLER) returns (after: State)
    requires o.alloc == MEDDLER.alloc
    ensures after == Ready(status).(heap := Ready(status).heap[1 := DictObj(map[StrV("qemu") := Ref(0)])])
    ensures Eval(CAPTURE, Ready(status), o) == Ok(Ref(1), after)
  {
    var st := Ready(status);
    after := st.(heap := st.heap[1 := DictObj(map[StrV("qemu") := Ref(0)])]);
    assert CAPTURE.entries[1..] == [];
    assert EvalEntry(CAPTURE.entries[0], map[], st, o) == Some((map[StrV("qemu") := Ref(0)], st));
    assert EvalEntries(CAPTURE.entries, map[], st, o) == Some((map[StrV("qemu") := Ref(0)], st));
    assert (st.heap - {0}) == map[] && Fresh(map[], 1) == 1 && Fresh(st.heap, 0) == 1;
  }

  lemma WitnessRunWrites(lit: seq<Entry>, targets: seq<Expr>, status: string, final: State, j: Json)
      returns (w: ProofWrite, c: ProofCapture)
    requires DictValue(lit, "status") == Some(STATUS) && ProofFirst(targets)
    requires Eval(Dict(lit), DECIDED, MEDDLER) == Ok(Ref(0), Ready(status).(env := DECIDED.env))
    requires Exec(Assign(targets, CAPTURE), Ready(status), MEDDLER) == Some(final) && Writes(final, j)
    ensures w == ProofWrite(Witness(lit, targets), 3, WRITE) && c == ProofCapture(2, STATUS)
    ensures Accepts([w.script], w, c) && RunWrites(w, c, START, MEDDLER, Ready(status), j)
    ensures Run(w.script, 1, START, MEDDLER) == Some(DECIDED)
  {
    w, c := ProofWrite(Witness(lit, targets), 3, WRITE), ProofCapture(2, STATUS);
    WitnessIsAccepted(lit, targets);
    ReadyAfter(w.script, lit, status);
    assert Run(w.script, 3, START, MEDDLER) == Some(final);
    RunPutsProof(w, c, START, MEDDLER, Ready(status), final, j);
  }

  lemma CaptureRenders(final: State, q: Json)
    requires "proof" in final.env && final.env["proof"] == Ref(1) && final.heap.Keys == {0, 1}
    requires final.heap[1] == DictObj(map[StrV("qemu") := Ref(0)]) && Renders(final.heap, Ref(0), q)
    ensures Writes(final, JDict(map[StrV("qemu") := q]))
  {}

  lemma StoreTwo(other: Expr, st: State)
    requires IsStoring(other)
    ensures Store([Name("proof"), other], Ref(1), st, MEDDLER)
      == Some(st.(env := st.env["proof" := Ref(1)], heap := Emptied(st.heap)))
  {
    var st1 := st.(env := st.env["proof" := Ref(1)]);
    var st2 := st1.(heap := Emptied(st1.heap));
    assert [Name("proof"), other][1..] == [other] && [other][1..] == [];
    assert Store([], Ref(1), st2, MEDDLER) == Some(st2);
    assert Store([other], Ref(1), st1, MEDDLER) == Some(st2);
  }

  const SINK: Expr := Attribute(Name("proof_sink"), "last")

  const NOTHING: Json := JDict(map[StrV("qemu") := JDict(map[])])

  lemma MeddledCaptureWrites(status: string) returns (final: State)
    ensures Exec(Assign([Name("proof"), SINK], CAPTURE), Ready(status), MEDDLER) == Some(final)
    ensures Writes(final, NOTHING)
  {
    var after := CaptureEvaluates(status);
    StoreTwo(SINK, after);
    final := after.(env := after.env["proof" := Ref(1)], heap := Emptied(after.heap));
    assert Renders(final.heap, Ref(0), JDict(map[]));
    CaptureRenders(final, JDict(map[]));
  }

  lemma NothingIsNotShown(status: string)
    ensures !ShowsQemuOf(Ready(status), NOTHING)
  {
    assert StrV("status") !in NOTHING.members[StrV("qemu")].members;
  }

  /** An accepted script whose capture statement also assigns to an attribute can write
      something else than `qemu` held. */
  lemma AcceptedCaptureMayBeUnsafe() returns (w: ProofWrite, c: ProofCapture, j: Json)
    ensures Accepts([w.script], w, c) && RunWrites(w, c, START, MEDDLER, Ready("available"), j)
    ensures !ShowsQemuOf(Ready("available"), j)
  {
    var available := "available";
    LiteralsEvaluate();
    var final := MeddledCaptureWrites(available);
    j := NOTHING;
    w, c := WitnessRunWrites(ONE_STATUS, [Name("proof"), SINK], available, final, j);
    NothingIsNotShown(available);
  }

  lemma MisleadingLiteral()
    ensures QemuUndisturbed(TWO_STATUSES, DECIDED, Ready("unavailable"), MEDDLER)
    ensures IsChosenBranch(STATUS, DECIDED, MEDDLER, StrV("available"))
  {
    LiteralsEvaluate();
    assert StrV("status") in Ready("unavailable").heap[0].items;
  }

  /** The JSON of `proof` after the capture, when the status came out as `status`. */
  function StatusJson(status: string): Json {
    JDict(map[StrV("qemu") := JDict(map[StrV("status") := JAtom(StrV(status))])])
  }

  lemma CaptureWrites(status: string, o: Oracle := MEDDLER) returns (final: State)
    requires o.alloc == MEDDLER.alloc
    ensures Exec(Assign([Name("proof")], CAPTURE), Ready(status), o) == Some(final)
    ensures Writes(final, StatusJson(status))
  {
    var after := CaptureEvaluates(status, o);
    final := after.(env := after.env["proof" := Ref(1)]);
    ExecName("proof", CAPTURE, Ready(status), o);
    var inner := JDict(map[StrV("status") := JAtom(StrV(status))]);
    assert Renders(final.heap, StrV(status), JAtom(StrV(status)));
    assert Renders(final.heap, Ref(0), inner);
    CaptureRenders(final, inner);
  }

  /** A literal that repeats "status" is judged by its first entry while Python keeps the
      last: QEMU is usable, the literal says so first, and "unavailable" is written. */
  lemma RepeatedStatusMisleads() returns (w: ProofWrite, c: ProofCapture, j: Json)
    ensures Accepts([w.script], w, c) && RunWrites(w, c, START, MEDDLER, Ready("unavailable"), j)
    ensures w.script[1] == Assign([Name("qemu")], Dict(TWO_STATUSES)) && c.index == 2
    ensures Run(w.script, 1, START, MEDDLER) == Some(DECIDED)
    ensures QemuUndisturbed(TWO_STATUSES, DECIDED, Ready("unavailable"), MEDDLER)
    ensures IsChosenBranch(c.status, DECIDED, MEDDLER, StrV("available"))
    ensures j == StatusJson("unavailable")
  {
    var unavailable := "unavailable";
    j := StatusJson(unavailable);
    MisleadingLiteral();
    LiteralsEvaluate();
    var final := CaptureWrites(unavailable);
    w, c := WitnessRunWrites(TWO_STATUSES, [Name("proof")], unavailable, final, j);
  }

  // ----- a capture statement that assigns `qemu` first -----

  const OWN: Expr := Dict([Entry(Some(Const(StrConst("qemu"))), Name("qemu")), StatusEntry(STATUS)])

  /** `qemu` is never a literal before the capture, whose own literal is judged instead. */
  const SELF_CAPTURE: Script := [
    Assign([Name("qemu_usable")], USABLE), Assign([Name("qemu")], Name("found")),
    Assign([Name("qemu"), Name("proof")], OWN), ExprStmt(WRITE)]

  lemma OwnIsCaptured(dicts: DictTable)
    requires "qemu" in dicts && dicts["qemu"] == OWN.entries
    ensures ProofCaptureStatus(OWN, dicts) == Some(STATUS)
  {
    var rest := OWN.entries[1..];
    assert rest == [StatusEntry(STATUS)] && rest[1..] == [];
    assert DictValue(rest, "status") == Some(STATUS) && DictValue(OWN.entries, "status") == DictValue(rest, "status");
    assert QemuStatusFrom(Name("qemu"), dicts) == Some(STATUS);
    StatusIsQuiet();
    assert CaptureEntries([], dicts, Some(STATUS)) == Some(STATUS);
    assert CaptureEntries(rest, dicts, Some(STATUS)) == Some(STATUS);
  }

  lemma StatusIsQuiet()
    ensures IsSideEffectFreeCaptureValue(STATUS)
  {
    var yes, no := STATUS.body, STATUS.orelse;
    assert Walk(STATUS.test) == [STATUS.test] && Walk(yes) == [yes] && Walk(no) == [no];
    assert Walk(STATUS) == [STATUS, STATUS.test, yes, no];
  }

  lemma SelfCaptures(dicts: DictTable)
    ensures StatementStatus(dicts, [Name("qemu"), Name("proof")], OWN) == Some(STATUS)
  {
    var targets := [Name("qemu"), Name("proof")];
    assert targets[..1] == [Name("qemu")] && [Name("qemu")][..0] == [];
    assert DictsAfterTargets(dicts, [Name("qemu")], OWN) == dicts["qemu" := OWN.entries];
    OwnIsCaptured(DictsAfterTargets(dicts, targets, OWN));
  }

  lemma SelfAssignsQemuFirst()
    ensures AssignsQemuFirst(SELF_CAPTURE[2]) && forall k | 0 <= k < 2 :: !AssignsDict(SELF_CAPTURE[k], "qemu")
  {
    var rest := OWN.entries[1..];
    assert rest == [StatusEntry(STATUS)] && DictValue(OWN.entries, "status") == DictValue(rest, "status");
    var targets := SELF_CAPTURE[2].targets;
    assert IsName(targets[0], "qemu") && IsName(targets[1], "proof");
  }

  lemma SelfCaptureIsAccepted()
    ensures Accepts([SELF_CAPTURE], ProofWrite(SELF_CAPTURE, 3, WRITE), ProofCapture(2, STATUS))
    ensures AssignsQemuFirst(SELF_CAPTURE[2]) && forall k | 0 <= k < 2 :: !AssignsDict(SELF_CAPTURE[k], "qemu")
  {
    SelfCaptures(DictsAfter(SELF_CAPTURE, 2));
    SelfAssignsQemuFirst();
    assert IsName(SELF_CAPTURE[0].targets[0], "qemu_usable");
    CapturedIsAccepted(SELF_CAPTURE, 0, STATUS);
  }

  /** A state in which `found` has the status `status`. */
  function Found(status: string): State {
    State(START.env["found" := Ref(0)], map[0 := DictObj(map[StrV("status") := StrV(status)])], 0)
  }

  function BeforeSelf(status: string): State {
    Found(status).(env := Found(status).env["qemu_usable" := BoolV(true)]["qemu" := Ref(0)])
  }

  /** What is written: the object found, and beside it the status judged. */
  function SelfJson(status: string): Json {
    JDict(map[StrV("qemu") := JDict(map[StrV("status") := JAtom(StrV(status))]), StrV("status") := JAtom(StrV("available"))])
  }

  lemma RunsToSelf(status: string)
    ensures Run(SELF_CAPTURE, 2, Found(status), MEDDLER) == Some(BeforeSelf(status)) && Closed(BeforeSelf(status))
  {
    var st0 := Found(status);
    var st1 := st0.(env := st0.env["qemu_usable" := BoolV(true)]);
    UsableIsAvailableWithVersion(USABLE, st0, MEDDLER);
    ExecName("qemu_usable", USABLE, st0);
    ExecName("qemu", Name("found"), st1);
    assert Run(SELF_CAPTURE, 0, st0, MEDDLER) == Some(st0);
    assert Run(SELF_CAPTURE, 1, st0, MEDDLER) == Some(st1);
  }

  lemma OwnEvaluates(status: string) returns (after: State)
    ensures after == BeforeSelf(status).(heap := BeforeSelf(status).heap[
      1 := DictObj(map[StrV("qemu") := Ref(0), StrV("status") := StrV("available")])])
    ensures Eval(OWN, BeforeSelf(status), MEDDLER) == Ok(Ref(1), after)
  {
    var st := BeforeSelf(status);
    var one, two := map[StrV("qemu") := Ref(0)], map[StrV("qemu") := Ref(0), StrV("status") := StrV("available")];
    after := st.(heap := st.heap[1 := DictObj(two)]);
    assert OWN.entries[1..] == [StatusEntry(STATUS)] && OWN.entries[1..][1..] == [];
    assert EvalEntry(OWN.entries[0], map[], st, MEDDLER) == Some((one, st));
    assert EvalEntry(StatusEntry(STATUS), one, st, MEDDLER) == Some((two, st));
    assert EvalEntries(OWN.entries[1..], one, st, MEDDLER) == Some((two, st));
    assert EvalEntries(OWN.entries, map[], st, MEDDLER) == Some((two, st));
    assert (st.heap - {0}) == map[] && Fresh(map[], 1) == 1 && Fresh(st.heap, 0) == 1;
  }

  lemma SelfRenders(final: State, status: string)
    requires "proof" in final.env && final.env["proof"] == Ref(1) && 0 in final.heap && 1 in final.heap
    requires final.heap[0] == DictObj(map[StrV("status") := StrV(status)])
    requires final.heap[1] == DictObj(map[StrV("qemu") := Ref(0), StrV("status") := StrV("available")])
    ensures Writes(final, SelfJson(status))
  {
    assert Renders(final.heap, StrV(status), JAtom(StrV(status)));
    assert Renders(final.heap, StrV("available"), JAtom(StrV("available")));
    assert Renders(final.heap, Ref(0), JDict(map[StrV("status") := JAtom(StrV(status))]));
  }

  lemma SelfWrites(status: string) returns (final: State)
    ensures Run(SELF_CAPTURE, 3, Found(status), MEDDLER) == Some(final) && Writes(final, SelfJson(status))
  {
    RunsToSelf(status);
    var after := OwnEvaluates(status);
    var st1 := after.(env := after.env["qemu" := Ref(1)]);
    final := st1.(env := st1.env["proof" := Ref(1)]);
    assert [Name("qemu"), Name("proof")][1..] == [Name("proof")] && [Name("proof")][1..] == [];
    assert Store([], Ref(1), final, MEDDLER) == Some(final);
    assert Store([Name("proof")], Ref(1), st1, MEDDLER) == Some(final);
    assert Store(SELF_CAPTURE[2].targets, Ref(1), after, MEDDLER) == Some(final);
    SelfRenders(final, status);
  }

  /** An accepted script of plain names in which the literal judged is the capture's own:
      its status says "available", and under "qemu" an object is written that says anything. */
  lemma OwnLiteralIsJudged(status: string) returns (w: ProofWrite, c: ProofCapture)
    ensures w == ProofWrite(SELF_CAPTURE, 3, WRITE) && c == ProofCapture(2, STATUS)
    ensures Accepts([SELF_CAPTURE], w, c) && !JudgesEarlierLiteral(w, c) && OnlyNames(TargetsAt(SELF_CAPTURE, 2))
    ensures forall k | 0 <= k < 2 :: !AssignsDict(SELF_CAPTURE[k], "qemu")
    ensures RunWrites(w, c, Found(status), MEDDLER, BeforeSelf(status), SelfJson(status))
    ensures IsChosenBranch(c.status, BeforeSelf(status), MEDDLER, StrV("available"))
  {
    w, c := ProofWrite(SELF_CAPTURE, 3, WRITE), ProofCapture(2, STATUS);
    SelfCaptureIsAccepted();
    RunsToSelf(status);
    var final := SelfWrites(status);
    RunPutsProof(w, c, Found(status), MEDDLER, BeforeSelf(status), final, SelfJson(status));
    SelfChooses(status);
  }

  lemma SelfChooses(status: string)
    ensures IsChosenBranch(STATUS, BeforeSelf(status), MEDDLER, StrV("available"))
  {
    assert BeforeSelf(status).env["qemu_usable"] == BoolV(true);
  }

  // ----- `qemu_usable` decided too late -----

  /** The required assignment stands after the literal that should see it. */
  const LATE: Script := [
    Assign([Name("qemu_usable")], Const(BoolConst(true))), Assign([Name("qemu")], Dict(ONE_STATUS)),
    Assign([Name("qemu_usable")], USABLE), Assign([Name("proof")], CAPTURE), ExprStmt(WRITE)]

  /** QEMU is not there. */
  const ABSENT: State := State(map["qemu_available" := BoolV(false), "qemu_version" := StrV("")], map[], 0)

  lemma LateIsAccepted()
    ensures Accepts([LATE], ProofWrite(LATE, 4, WRITE), ProofCapture(3, STATUS))
  {
    assert IsName(LATE[1].targets[0], "qemu");
    TableAfterTargets(DictsAfter(LATE, 1), LATE[1].targets, LATE[1].rhs, "qemu");
    assert DictsAfter(LATE, 3) == DictsAfter(LATE, 2) by {
      TableAfterTargets(DictsAfter(LATE, 2), LATE[2].targets, LATE[2].rhs, "qemu");
      assert LATE[2].targets[..0] == [];
    }
    assert DictValue(ONE_STATUS, "status") == Some(STATUS);
    StatementStatusOfWitness(DictsAfter(LATE, 3), LATE[3].targets);
    assert IsName(LATE[2].targets[0], "qemu_usable");
    CapturedIsAccepted(LATE, 2, STATUS);
  }

  const CLAIMED: State := ABSENT.(env := ABSENT.env["qemu_usable" := BoolV(true)])
  const CLAIMED_OBJECT: Object := DictObj(map[StrV("status") := StrV("available")])
  const MADE: State := State(CLAIMED.env["qemu" := Ref(0)], map[0 := CLAIMED_OBJECT], 0)
  const LATE_BEFORE: State := MADE.(env := MADE.env["qemu_usable" := BoolV(false)])

  lemma ClaimedLiteral()
    ensures Eval(Dict(ONE_STATUS), CLAIMED, MEDDLER) == Ok(Ref(0), CLAIMED.(heap := map[0 := CLAIMED_OBJECT]))
  {
    var one := map[StrV("status") := StrV("available")];
    assert Eval(STATUS, CLAIMED, MEDDLER) == Ok(StrV("available"), CLAIMED);
    assert EvalEntry(StatusEntry(STATUS), map[], CLAIMED, MEDDLER) == Some((one, CLAIMED));
    assert ONE_STATUS[1..] == [];
    assert EvalEntries(ONE_STATUS, map[], CLAIMED, MEDDLER) == Some((one, CLAIMED));
  }

  lemma RunsToLate()
    ensures Run(LATE, 2, ABSENT, MEDDLER) == Some(MADE) && Run(LATE, 3, ABSENT, MEDDLER) == Some(LATE_BEFORE)
    ensures Closed(LATE_BEFORE)
  {
    assert Run(LATE, 0, ABSENT, MEDDLER) == Some(ABSENT);
    ExecName("qemu_usable", Const(BoolConst(true)), ABSENT);
    assert Run(LATE, 1, ABSENT, MEDDLER) == Some(CLAIMED);
    ClaimedLiteral();
    ExecName("qemu", Dict(ONE_STATUS), CLAIMED);
    UsableIsAvailableWithVersion(USABLE, MADE, MEDDLER);
    ExecName("qemu_usable", USABLE, MADE);
  }

  lemma LateWrites() returns (final: State)
    ensures Exec(Assign([Name("proof")], CAPTURE), LATE_BEFORE, MEDDLER) == Some(final)
    ensures Writes(final, StatusJson("available"))
  {
    var st := LATE_BEFORE;
    var after := st.(heap := st.heap[1 := DictObj(map[StrV("qemu") := Ref(0)])]);
    assert CAPTURE.entries[1..] == [];
    assert EvalEntry(CAPTURE.entries[0], map[], st, MEDDLER) == Some((map[StrV("qemu") := Ref(0)], st));
    assert EvalEntries(CAPTURE.entries, map[], st, MEDDLER) == Some((map[StrV("qemu") := Ref(0)], st));
    assert (st.heap - {0}) == map[] && Fresh(map[], 1) == 1 && Fresh(st.heap, 0) == 1;
    final := after.(env := after.env["proof" := Ref(1)]);
    ExecName("proof", CAPTURE, st);
    assert Renders(final.heap, StrV("available"), JAtom(StrV("available")));
    CaptureRenders(final, JDict(map[StrV("status") := JAtom(StrV("available"))]));
  }

  lemma LateOrder()
    ensures AssignsUsable(LATE[2]) && AssignsDict(LATE[1], "qemu")
  {
    assert IsName(LATE[2].targets[0], "qemu_usable") && IsName(LATE[1].targets[0], "qemu");
  }

  lemma LateRunWrites(j: Json, final: State)
    requires Exec(LATE[3], LATE_BEFORE, MEDDLER) == Some(final) && Writes(final, j)
    ensures RunWrites(ProofWrite(LATE, 4, WRITE), ProofCapture(3, STATUS), ABSENT, MEDDLER, LATE_BEFORE, j)
  {
    RunsToLate();
    assert Run(LATE, 4, ABSENT, MEDDLER) == Some(final);
    RunPutsProof(ProofWrite(LATE, 4, WRITE), ProofCapture(3, STATUS), ABSENT, MEDDLER, LATE_BEFORE, final, j);
  }

  /** An accepted script in which the required assignment comes after the literal: QEMU is
      not there when it is made, the literal has said "available" before, and that is written. */
  lemma LateDecisionMisleads() returns (w: ProofWrite, c: ProofCapture)
    ensures w == ProofWrite(LATE, 4, WRITE) && c == ProofCapture(3, STATUS)
    ensures Accepts([LATE], w, c) && AssignsUsable(LATE[2]) && AssignsDict(LATE[1], "qemu")
    ensures Run(LATE, 2, ABSENT, MEDDLER) == Some(MADE) && MADE.env["qemu_available"] == BoolV(false)
    ensures RunWrites(w, c, ABSENT, MEDDLER, LATE_BEFORE, StatusJson("available"))
  {
    w, c := ProofWrite(LATE, 4, WRITE), ProofCapture(3, STATUS);
    LateIsAccepted();
    LateOrder();
    RunsToLate();
    var final := LateWrites();
    LateRunWrites(StatusJson("available"), final);
  }

  // ----- a write whose receiver runs code -----

  /** `Path(..., strict=qemu.clear())` */
  const CLEARING_PATH: Expr := Call(Name("Path"), [Const(StrConst(RUNNER_PROOF_PATH))],
    [Keyword(Some("strict"), Call(Attribute(Name("qemu"), "clear"), [], []))])

  const CLEARED: Script := [
    Assign([Name("qemu_usable")], USABLE), Assign([Name("qemu")], Dict(ONE_STATUS)), Assign([Name("proof")], CAPTURE),
    WriteBy(CLEARING_PATH, BoolConst(true))]

  /** A call empties the object at address 0. */
  ghost const CLEARER: Oracle := MEDDLER.(call := (e: Expr, st: State) => Ok(NoneV, st.(heap := Emptied(st.heap))))

  lemma CaptureShape(body: Script)
    requires |body| == 4 && body[0] == Assign([Name("qemu_usable")], USABLE)
    requires body[1] == Assign([Name("qemu")], Dict(ONE_STATUS))
    ensures DecidesSomewhere(body) && IsLastLiteral(body, 2, "qemu", 1) && HasFirstStatus(ONE_STATUS, STATUS)
    ensures AreCaptureEntries(CAPTURE.entries) && NamesQemu(CAPTURE.entries) && ChoosesByUsable(STATUS)
  {
    assert IsFirstStatus(ONE_STATUS, 0);
    assert IsKey(CAPTURE.entries[0].key, "qemu");
    assert IsName(body[1].targets[0], "qemu");
  }

  lemma ClearedIsAccepted() returns (w: ProofWrite, c: ProofCapture)
    ensures w == ProofWrite(CLEARED, 3, WriteBy(CLEARING_PATH, BoolConst(true)).expr) && c == ProofCapture(2, STATUS)
    ensures Accepts([CLEARED], w, c)
  {
    var path := RUNNER_PROOF_PATH;
    assert PathExpr(path, [CLEARING_PATH.keywords]) == Call(Name("Path"), [PathExpr(path, [])], CLEARING_PATH.keywords);
    assert GoesToProof(CLEARED, 3, CLEARING_PATH);
    CaptureShape(CLEARED);
    w, c := ShapeIsAccepted(CLEARED, CLEARING_PATH, 1, STATUS, CAPTURE.entries);
  }

  lemma ClearedRuns(status: string) returns (final: State)
    requires Eval(Dict(ONE_STATUS), DECIDED, CLEARER) == Ok(Ref(0), Ready(status).(env := DECIDED.env))
    ensures Run(CLEARED, 2, START, CLEARER) == Some(Ready(status)) && Closed(Ready(status))
    ensures Run(CLEARED, 3, START, CLEARER) == Some(final) && "proof" in final.env && final.env["proof"] == Ref(1)
    ensures final.heap.Keys == {0, 1} && final.heap[1] == DictObj(map[StrV("qemu") := Ref(0)])
  {
    ReadyAfter(CLEARED, ONE_STATUS, status, CLEARER);
    var after := CaptureEvaluates(status, CLEARER);
    final := after.(env := after.env["proof" := Ref(1)]);
    ExecName("proof", CAPTURE, Ready(status), CLEARER);
  }

  lemma ClearedPuts(final: State)
    requires "proof" in final.env && final.env["proof"] == Ref(1)
    requires final.heap.Keys == {0, 1} && final.heap[1] == DictObj(map[StrV("qemu") := Ref(0)])
    ensures Put(WriteBy(CLEARING_PATH, BoolConst(true)).expr, final, CLEARER) == Some((Held(NoneV), [Dumped(NOTHING), Plain("\n")]))
  {
    var call, emptied := WriteBy(CLEARING_PATH, BoolConst(true)).expr, final.(heap := Emptied(final.heap));
    assert Receiver(CLEARING_PATH, final, CLEARER) == Some((Held(NoneV), emptied));
    assert Renders(emptied.heap, Ref(0), JDict(map[]));
    CaptureRenders(emptied, JDict(map[]));
    ArgumentIsPrinted(call.args[0], emptied, CLEARER);
    WritesOnce(emptied, TextOf(call.args[0], emptied, CLEARER).value.0, NOTHING);
  }

  lemma ClearedRunPuts(w: ProofWrite, c: ProofCapture, status: string, final: State)
    requires w == ProofWrite(CLEARED, 3, WriteBy(CLEARING_PATH, BoolConst(true)).expr) && c == ProofCapture(2, STATUS)
    requires Run(CLEARED, 2, START, CLEARER) == Some(Ready(status)) && Closed(Ready(status))
    requires Run(CLEARED, 3, START, CLEARER) == Some(final)
    requires Put(w.call, final, CLEARER) == Some((Held(NoneV), [Dumped(NOTHING), Plain("\n")]))
    ensures RunPuts(w, c, START, CLEARER, Ready(status), Held(NoneV), [Dumped(NOTHING), Plain("\n")])
  {}

  /** An accepted script whose write calls `Path` with a keyword that empties `qemu`: the JSON
      written does not show what `qemu` held. */
  lemma KeywordReceiverMisleads() returns (w: ProofWrite, c: ProofCapture, file: File)
    ensures Accepts([w.script], w, c) && KeepsProof(TargetsAt(w.script, c.index)) && !CarriesProof(w, c)
    ensures RunPuts(w, c, START, CLEARER, Ready("available"), file, [Dumped(NOTHING), Plain("\n")])
    ensures !ShowsQemuOf(Ready("available"), NOTHING)
  {
    var available := "available";
    w, c := ClearedIsAccepted();
    LiteralsEvaluate(CLEARER);
    var final := ClearedRuns(available);
    ClearedPuts(final);
    ClearedRunPuts(w, c, available, final);
    file := Held(NoneV);
    NothingIsNotShown(available);
  }

  // ----- a path that is bound to something else -----

  /** `out` is the proof file's path, and then what `elsewhere` is. */
  const STALE: Script := [
    Assign([Name("qemu_usable")], USABLE), Assign([Name("qemu")], Dict(ONE_STATUS)),
    Assign([Name("out")], PROOF_PATH), Assign([Name("out")], Name("elsewhere")),
    Assign([Name("proof")], CAPTURE), WriteBy(Name("out"), BoolConst(true))]

  lemma StaleIsAccepted() returns (w: ProofWrite, c: ProofCapture)
    ensures w == ProofWrite(STALE, 5, WriteBy(Name("out"), BoolConst(true)).expr) && c == ProofCapture(4, STATUS)
    ensures Accepts([STALE], w, c)
  {
    assert IsFirstStatus(ONE_STATUS, 0);
    assert IsKey(CAPTURE.entries[0].key, "qemu");
    assert IsName(STALE[1].targets[0], "qemu");
    assert Name("qemu_usable") in STALE[0].targets && STALE[0].rhs == AVAILABLE_WITH_VERSION;
    assert NoPathSince(STALE, 3, 5, "out") by { PathLiteralIff(Name("elsewhere"), ""); }
    w, c := WorkflowShapeIsAccepted(STALE, "out", 2, 1, STATUS, CAPTURE.entries);
  }

  lemma CaptureIsQuiet()
    ensures IsQuiet(STALE[4], "out")
  {
    SideEffectFreeIff(CAPTURE);
    assert CAPTURE.entries[0].value == Name("qemu");
  }

  /** An accepted script in which the table of paths is stale: in every run, whatever the oracle,
      it is the file that `elsewhere` names that is written. */
  lemma StalePathMisleads(initial: State, o: Oracle, before: State, file: File, text: Text)
      returns (w: ProofWrite, c: ProofCapture)
    ensures Accepts([STALE], w, c) && CarriesProof(w, c) && w.script == STALE
    ensures RunPuts(w, c, initial, o, before, file, text) ==>
      && Run(STALE, 3, initial, o).Some? && "elsewhere" in Run(STALE, 3, initial, o).value.env
      && file == Held(Run(STALE, 3, initial, o).value.env["elsewhere"])
  {
    w, c := StaleIsAccepted();
    if RunPuts(w, c, initial, o, before, file, text) {
      StaleRunWrites(initial, o);
    }
  }

  lemma StaleRunWrites(initial: State, o: Oracle)
    requires Run(STALE, 5, initial, o).Some?
    ensures Run(STALE, 3, initial, o).Some? && "elsewhere" in Run(STALE, 3, initial, o).value.env
    ensures "out" in Run(STALE, 5, initial, o).value.env
    ensures Run(STALE, 5, initial, o).value.env["out"] == Run(STALE, 3, initial, o).value.env["elsewhere"]
  {
    CaptureIsQuiet();
    QuietStatementsKeep(STALE, 4, 5, "out", initial, o);
    RunsUpTo(STALE, 3, 4, initial, o);
    var st := Run(STALE, 3, initial, o).value;
    var v := st.env["elsewhere"];
    StoreNames([Name("out")], v, st, "out", o);
    assert IsName([Name("out")][0], "out");
  }
}
