/** What acceptance by the analyser guarantees of every run of the script, whatever
    its calls, unknown statements and unusual stores do. */
module ProofFlowSoundness {
  import opened Wrappers
  import opened PythonAst
  import opened PythonEval
  import opened PythonFiles
  import opened ProofFlow

  // ----- a side-effect free value only allocates -----

  ghost predicate Clean(nodes: seq<Expr>) {
    forall x | x in nodes :: !IsForbidden(x) && LiteralKeysOnly(x)
  }

  /** Names keep their values, existing cells their contents. */
  ghost predicate OnlyAllocates(st: State, st': State) {
    st'.env == st.env && st'.world == st.world && Extends(st.heap, st'.heap)
  }

  lemma {:induction false} EvalPure(e: Expr, st: State, o: Oracle)
    requires Clean(Walk(e))
    ensures Eval(e, st, o).Ok? ==> OnlyAllocates(st, Eval(e, st, o).st)
    decreases e, 1
  {
    assert e in Walk(e);
    match e
    case Name(_) =>
    case Const(_) =>
    case Dict(entries) =>
      EntriesPure(entries, map[], st, o);
    case BoolOp(op, operands) => BoolPure(op, operands, st, o);
    case Compare(first, ops, comparators) =>
      EvalPure(first, st, o);
      if Eval(first, st, o).Ok? {
        ChainPure(Eval(first, st, o).value, ops, comparators, Eval(first, st, o).st, o);
      }
    case IfExp(test, body, orelse) =>
      EvalPure(test, st, o);
      if Eval(test, st, o).Ok? {
        EvalPure(body, Eval(test, st, o).st, o);
        EvalPure(orelse, Eval(test, st, o).st, o);
      }
    case Subscript(container, index) => PairPure(e, container, index, st, o);
    case Attribute(owner, _) => EvalPure(owner, st, o);
    case BinOp(left, _, right) => PairPure(e, left, right, st, o);
    case Display(_, items) => ItemsPure(items, st, o);
    case Call(_, _, _) =>
    case Effect(_, _) =>
  }

  lemma {:induction false} PairPure(e: Expr, a: Expr, b: Expr, st: State, o: Oracle)
    requires a < e && b < e && Clean(Walk(a)) && Clean(Walk(b))
    ensures EvalPair(e, a, b, st, o).Ok? ==> OnlyAllocates(st, EvalPair(e, a, b, st, o).st)
    decreases e, 0
  {
    EvalPure(a, st, o);
    if Eval(a, st, o).Ok? {
      EvalPure(b, Eval(a, st, o).st, o);
    }
  }

  lemma {:induction false} ItemsPure(es: seq<Expr>, st: State, o: Oracle)
    requires Clean(WalkAll(es))
    ensures EvalItems(es, st, o).Some? ==> OnlyAllocates(st, EvalItems(es, st, o).value.1)
    decreases es, 0
  {
    if es != [] {
      EvalPure(es[0], st, o);
      if Eval(es[0], st, o).Ok? {
        ItemsPure(es[1..], Eval(es[0], st, o).st, o);
      }
    }
  }

  lemma {:induction false} BoolPure(op: BoolOperator, es: seq<Expr>, st: State, o: Oracle)
    requires Clean(WalkAll(es))
    ensures EvalBool(op, es, st, o).Ok? ==> OnlyAllocates(st, EvalBool(op, es, st, o).st)
    decreases es, 0
  {
    if es != [] {
      EvalPure(es[0], st, o);
      if Eval(es[0], st, o).Ok? {
        BoolPure(op, es[1..], Eval(es[0], st, o).st, o);
      }
    }
  }

  lemma {:induction false} ChainPure(v: Value, ops: seq<CompareOperator>, es: seq<Expr>, st: State, o: Oracle)
    requires Clean(WalkAll(es))
    ensures EvalChain(v, ops, es, st, o).Ok? ==> OnlyAllocates(st, EvalChain(v, ops, es, st, o).st)
    decreases es, 0
  {
    if es != [] && ops != [] {
      EvalPure(es[0], st, o);
      if Eval(es[0], st, o).Ok? {
        ChainPure(Eval(es[0], st, o).value, ops[1..], es[1..], Eval(es[0], st, o).st, o);
      }
    }
  }

  lemma {:induction false} EntriesPure(entries: seq<Entry>, acc: map<Value, Value>, st: State, o: Oracle)
    requires Clean(WalkEntries(entries)) && forall i | 0 <= i < |entries| :: IsStringKey(entries[i].key)
    ensures EvalEntries(entries, acc, st, o).Some? ==> OnlyAllocates(st, EvalEntries(entries, acc, st, o).value.1)
    decreases entries, 0
  {
    if entries != [] {
      EntryPure(entries[0], acc, st, o);
      var r := EvalEntry(entries[0], acc, st, o);
      if r.Some? {
        EntriesPure(entries[1..], r.value.0, r.value.1, o);
      }
    }
  }

  lemma {:induction false} EntryPure(entry: Entry, acc: map<Value, Value>, st: State, o: Oracle)
    requires Clean(WalkEntry(entry)) && IsStringKey(entry.key)
    ensures EvalEntry(entry, acc, st, o).Some? ==> OnlyAllocates(st, EvalEntry(entry, acc, st, o).value.1)
    decreases entry, 0
  {
    EvalPure(entry.value, st, o);
  }

  /** The analyser's test is what purity needs: for every oracle and state, a value
      that passes it evaluates without changing a name or an existing cell. */
  lemma SideEffectFreeValueOnlyAllocates(e: Expr, st: State, o: Oracle)
    requires IsSideEffectFreeCaptureValue(e)
    ensures Eval(e, st, o).Ok? ==> OnlyAllocates(st, Eval(e, st, o).st)
  {
    EvalPure(e, st, o);
  }

  // ----- the capture statement -----

  ghost predicate QemuBound(items: map<Value, Value>, st: State) {
    "qemu" in st.env && StrV("qemu") in items && items[StrV("qemu")] == st.env["qemu"]
  }

  /** The entries of an accepted capture bind "qemu" to the object `qemu` names. */
  lemma {:induction false} CaptureEntriesBindQemu(
      entries: seq<Entry>, dicts: DictTable, status: Option<Expr>, acc: map<Value, Value>, st: State, o: Oracle)
    requires CaptureEntries(entries, dicts, status).Some?
    requires status.Some? ==> QemuBound(acc, st)
    ensures
      match EvalEntries(entries, acc, st, o)
      case None => true
      case Some((items, st')) => OnlyAllocates(st, st') && QemuBound(items, st)
    decreases |entries|
  {
    if entries != [] {
      var entry := entries[0];
      var qemu := IsKey(entry.key, "qemu");
      if !qemu {
        EvalPure(entry.value, st, o);
      }
      match EvalEntry(entry, acc, st, o)
      case None =>
      case Some((acc1, st1)) =>
        CaptureEntriesBindQemu(entries[1..], dicts,
          if qemu then QemuStatusFrom(entry.value, dicts) else status, acc1, st1, o);
    }
  }

  lemma {:induction false} CapturedKeysAreStrings(
      entries: seq<Entry>, dicts: DictTable, status: Option<Expr>, acc: map<Value, Value>, st: State, o: Oracle)
    requires CaptureEntries(entries, dicts, status).Some? && forall k | k in acc :: k.StrV?
    ensures EvalEntries(entries, acc, st, o).Some? ==> forall k | k in EvalEntries(entries, acc, st, o).value.0 :: k.StrV?
    decreases |entries|
  {
    if entries != [] && EvalEntry(entries[0], acc, st, o).Some? {
      var (acc1, st1) := EvalEntry(entries[0], acc, st, o).value;
      var next := if IsKey(entries[0].key, "qemu") then QemuStatusFrom(entries[0].value, dicts) else status;
      CapturedKeysAreStrings(entries[1..], dicts, next, acc1, st1, o);
    }
  }

  /** The statement assigns an accepted capture value to `proof`. */
  predicate IsCaptureStatement(s: Stmt, dicts: DictTable) {
    s.Assign? && ProofCaptureStatus(s.rhs, dicts).Some? && IsNameListTarget(s, "proof")
  }

  predicate OnlyNames(targets: seq<Expr>) {
    forall i | 0 <= i < |targets| :: targets[i].Name?
  }

  lemma {:induction false} StoreNames(targets: seq<Expr>, v: Value, st: State, x: string, o: Oracle)
    requires OnlyNames(targets)
    ensures Store(targets, v, st, o).Some?
    ensures
      var st' := Store(targets, v, st, o).value;
      && st'.heap == st.heap
      && if exists t | t in targets :: IsName(t, x) then x in st'.env && st'.env[x] == v
         else (x in st'.env <==> x in st.env) && (x in st.env ==> st'.env[x] == st.env[x])
    decreases |targets|
  {
    if targets != [] {
      StoreNames(targets[1..], v, st.(env := st.env[targets[0].id := v]), x, o);
      assert (exists t | t in targets :: IsName(t, x)) <==> (IsName(targets[0], x) || exists t | t in targets[1..] :: IsName(t, x));
    }
  }

  /** The JSON `j` of `proof` shows under "qemu" what `qemu` held in `before`, and only that. */
  ghost predicate ShowsQemuOf(before: State, j: Json) {
    && "qemu" in before.env && j.JDict? && StrV("qemu") in j.members
    && Renders(before.heap, before.env["qemu"], j.members[StrV("qemu")])
    && forall q | Renders(before.heap, before.env["qemu"], q) :: q == j.members[StrV("qemu")]
  }

  ghost predicate Writes(st: State, j: Json) {
    "proof" in st.env && Renders(st.heap, st.env["proof"], j)
  }

  /** A name, or a tuple or list of such targets: it binds names and does nothing else. */
  predicate IsBinding(t: Expr)
    decreases t, 1
  {
    t.Name? || (IsUnpacking(t) && AreBinding(t.items))
  }

  predicate AreBinding(ts: seq<Expr>)
    decreases ts, 0
  {
    ts == [] || (IsBinding(ts[0]) && AreBinding(ts[1..]))
  }

  /** The target may bind `x`, itself or within. */
  predicate Mentions(t: Expr, x: string)
    decreases t, 1
  {
    IsName(t, x) || (t.Display? && AnyMentions(t.items, x)) || (t.Effect? && AnyMentions(t.parts, x))
  }

  predicate AnyMentions(ts: seq<Expr>, x: string)
    decreases ts, 0
  {
    ts != [] && (Mentions(ts[0], x) || AnyMentions(ts[1..], x))
  }

  /** A string, or a dict with string keys: all that unpacking can make of it are strings. */
  predicate YieldsStrings(v: Value, heap: Heap) {
    v.StrV? || (v.Ref? && v.addr in heap && heap[v.addr].DictObj? && forall k | k in heap[v.addr].items :: k.StrV?)
  }

  /** Same heap, and the same value of `x` unless it may have been bound. */
  ghost predicate OnlyBinds(st: State, st': State, x: string, mentioned: bool) {
    && st'.heap == st.heap && st'.world == st.world
    && (!mentioned ==> (x in st'.env <==> x in st.env) && (x in st.env ==> st'.env[x] == st.env[x]))
  }

  lemma {:induction false} StoreOneBinds(t: Expr, v: Value, st: State, x: string, o: Oracle)
    requires IsBinding(t) && YieldsStrings(v, st.heap)
    ensures StoreOne(t, v, st, o).Some? ==> OnlyBinds(st, StoreOne(t, v, st, o).value, x, Mentions(t, x))
    decreases t, 1
  {
    if t.Display? && Elements(v, st.heap, |t.items|, o).Some? {
      StoreEachBinds(t.items, Elements(v, st.heap, |t.items|, o).value, st, x, o);
    }
  }

  lemma {:induction false} StoreEachBinds(ts: seq<Expr>, vs: seq<Value>, st: State, x: string, o: Oracle)
    requires AreBinding(ts) && |ts| == |vs| && forall i | 0 <= i < |vs| :: vs[i].StrV?
    ensures StoreEach(ts, vs, st, o).Some? ==> OnlyBinds(st, StoreEach(ts, vs, st, o).value, x, AnyMentions(ts, x))
    decreases ts, 0
  {
    if ts != [] {
      StoreOneBinds(ts[0], vs[0], st, x, o);
      if StoreOne(ts[0], vs[0], st, o).Some? {
        StoreEachBinds(ts[1..], vs[1..], StoreOne(ts[0], vs[0], st, o).value, x, o);
      }
    }
  }

  /** All targets only bind, and the last that may bind `proof` is the plain name. */
  predicate KeepsProof(targets: seq<Expr>) {
    AreBinding(targets) && EndsOnName(targets, "proof")
  }

  predicate EndsOnName(targets: seq<Expr>, x: string) {
    targets != [] && (EndsOnName(targets[1..], x) || (IsName(targets[0], x) && !AnyMentions(targets[1..], x)))
  }

  lemma {:induction false} StoreKeeps(targets: seq<Expr>, v: Value, st: State, x: string, o: Oracle)
    requires AreBinding(targets) && YieldsStrings(v, st.heap) && Store(targets, v, st, o).Some?
    ensures OnlyBinds(st, Store(targets, v, st, o).value, x, AnyMentions(targets, x))
    ensures EndsOnName(targets, x) ==>
      x in Store(targets, v, st, o).value.env && Store(targets, v, st, o).value.env[x] == v
    decreases |targets|
  {
    if targets != [] {
      StoreOneBinds(targets[0], v, st, x, o);
      StoreKeeps(targets[1..], v, StoreOne(targets[0], v, st, o).value, x, o);
    }
  }

  lemma {:induction false} NamesBind(targets: seq<Expr>, x: string)
    requires OnlyNames(targets)
    ensures AreBinding(targets) && (AnyMentions(targets, x) <==> exists t | t in targets :: IsName(t, x))
    ensures (exists t | t in targets :: IsName(t, x)) ==> EndsOnName(targets, x)
    decreases |targets|
  {
    if targets != [] {
      assert targets == [targets[0]] + targets[1..];
      NamesBind(targets[1..], x);
    }
  }

  /** Executing the capture statement from any state leaves a `proof` whose JSON shows
      the contents of `qemu` just before. */
  lemma CaptureShowsQemu(s: Stmt, dicts: DictTable, before: State, o: Oracle, j: Json)
    requires IsCaptureStatement(s, dicts) && KeepsProof(s.targets)
    requires Closed(before) && Exec(s, before, o).Some? && Writes(Exec(s, before, o).value, j)
    ensures ShowsQemuOf(before, j)
  {
    CaptureEntriesBindQemu(s.rhs.entries, dicts, None, map[], before, o);
    var (items, st1) := EvalEntries(s.rhs.entries, map[], before, o).value;
    var Ok(proof, st2) := Eval(s.rhs, before, o);
    CapturedKeysAreStrings(s.rhs.entries, dicts, None, map[], before, o);
    StoreKeeps(s.targets, proof, st2, "proof", o);
    var after := Exec(s, before, o).value;
    assert after.env["proof"] == proof && after.heap[proof.addr] == DictObj(items);
    var qemu := before.env["qemu"];
    assert InHeap(qemu, before.heap) && Extends(before.heap, after.heap);
    assert j.JDict? && StrV("qemu") in j.members;
    var shown := j.members[StrV("qemu")];
    assert Renders(after.heap, qemu, shown);
    RendersInExtension(before, after.heap, qemu, shown);
    forall q | Renders(before.heap, qemu, q) ensures q == shown {
      RendersUnique(before.heap, qemu, q, shown);
    }
  }

  // ----- the capture found by the scan -----

  lemma {:induction false} StatementStatusIsCaptured(dicts: DictTable, targets: seq<Expr>, rhs: Expr)
    requires StatementStatus(dicts, targets, rhs).Some?
    ensures exists t, d :: t in targets && IsName(t, "proof") && ProofCaptureStatus(rhs, d) == StatementStatus(dicts, targets, rhs)
    decreases |targets|
  {
    var last := targets[|targets| - 1];
    var d := DictsAfterTargets(dicts, targets, rhs);
    if IsName(last, "proof") && ProofCaptureStatus(rhs, d).Some? {
      assert last in targets && IsName(last, "proof") && ProofCaptureStatus(rhs, d) == StatementStatus(dicts, targets, rhs);
    } else {
      StatementStatusIsCaptured(dicts, targets[..|targets| - 1], rhs);
    }
  }

  /** The capture the scan reports is a capture statement. */
  lemma {:induction false} CaptureIsStatement(body: Script, n: nat)
    requires n <= |body| && CaptureAfter(body, n).Some?
    ensures CaptureAfter(body, n).value.index < n
    ensures exists d :: IsCaptureStatement(body[CaptureAfter(body, n).value.index], d)
    decreases n
  {
    if body[n - 1].Assign?
      && StatementStatus(DictsAfter(body, n - 1), body[n - 1].targets, body[n - 1].rhs).Some?
    {
      StatementStatusIsCaptured(DictsAfter(body, n - 1), body[n - 1].targets, body[n - 1].rhs);
      var t, d :| t in body[n - 1].targets && IsName(t, "proof") && ProofCaptureStatus(body[n - 1].rhs, d).Some?;
      assert IsCaptureStatement(body[n - 1], d);
    } else {
      CaptureIsStatement(body, n - 1);
    }
  }

  // ----- the write statement -----

  /** No `Path` around the receiver of the write takes keywords. */
  predicate IsPlainReceiver(e: Expr) {
    e.Call? ==> e.keywords == [] && (|e.args| == 1 ==> IsPlainReceiver(e.args[0]))
  }

  lemma {:induction false} PlainPathIsNamed(e: Expr)
    requires e.Call? && IsPlainReceiver(e) && PathLiteral(e).Some?
    ensures PathText(e) == PathLiteral(e)
    decreases e
  {
    if e.args[0].Call? { PlainPathIsNamed(e.args[0]); }
  }

  lemma {:induction false} PathWithKeywordsIsNotNamed(e: Expr)
    requires PathLiteral(e).Some? && !IsPlainReceiver(e)
    ensures PathText(e).None?
    decreases e
  {
    if e.keywords == [] { PathWithKeywordsIsNotNamed(e.args[0]); }
  }

  predicate CanEvaluate(receiver: Expr, st: State) { receiver.Name? ==> receiver.id in st.env }

  /** The file that is written. */
  predicate IsFileOf(receiver: Expr, file: File) { receiver.Call? ==> file == Named(RUNNER_PROOF_PATH) }

  /** The text is the JSON of `proof` in `st`, followed by `rest`. */
  ghost predicate IsProofText(text: Text, rest: Text, st: State) {
    text != [] && text[0].Dumped? && text == [text[0]] + rest && Writes(st, text[0].json)
  }

  lemma DumpHasOptions(keywords: seq<Keyword>)
    requires |keywords| == 2
    requires IsKeyword(keywords[0], "indent", IntConst(2)) && IsKeyword(keywords[1], "sort_keys", BoolConst(true))
    ensures Setting(keywords, "indent").Some? && KeyValue(Setting(keywords, "indent").value) == IntV(2)
    ensures Setting(keywords, "sort_keys").Some? && IsTrue(Setting(keywords, "sort_keys").value)
  {
    assert keywords[1..][0] == keywords[1];
    assert "indent"[0] != "sort_keys"[0];
    assert Setting(keywords, "sort_keys") == Setting(keywords[1..], "sort_keys") == Some(keywords[1].value.constant);
  }

  lemma DumpIsPrinted(e: Expr, st: State, o: Oracle)
    requires IsProofJsonDump(e)
    ensures
      match TextOf(e, st, o)
      case None => forall j :: !Writes(st, j)
      case Some((text, st')) => st' == st && IsProofText(text, [], st)
  {
    DumpHasOptions(e.keywords);
    assert Eval(e.args[0], st, o) == if "proof" in st.env then Ok(st.env["proof"], st) else Raised;
  }

  lemma ArgumentIsPrinted(e: Expr, st: State, o: Oracle)
    requires IsCanonicalWriteArg(e)
    ensures
      match TextOf(e, st, o)
      case None => forall j :: !Writes(st, j)
      case Some((text, st')) => st' == st && IsProofText(text, [Plain("\n")], st)
  {
    DumpIsPrinted(e.left, st, o);
    assert TextOf(e.right, st, o) == Some(([Plain("\n")], st));
    assert !IsDump(e);
  }

  lemma ReceiverOnlyReads(call: Expr, paths: map<string, string>, st: State, o: Oracle)
    requires IsWriteStatement(ExprStmt(call), paths) && IsPlainReceiver(call.func.owner)
    ensures
      match Receiver(call.func.owner, st, o)
      case None => !CanEvaluate(call.func.owner, st)
      case Some((file, st')) => st' == st && CanEvaluate(call.func.owner, st) && IsFileOf(call.func.owner, file)
  {
    if call.func.owner.Call? { PlainPathIsNamed(call.func.owner); }
  }

  lemma WritesOnce(st: State, text: Text, j: Json)
    requires IsProofText(text, [Plain("\n")], st)
    ensures text == [Dumped(j), Plain("\n")] <==> Writes(st, j)
  {
    if Writes(st, j) {
      RendersUnique(st.heap, st.env["proof"], text[0].json, j);
    }
    assert [Dumped(j), Plain("\n")][0] == Dumped(j);
  }

  /** A write statement with a plain receiver puts the JSON of `proof`, as it is before, and a
      newline in the file, or it raises. */
  lemma CanonicalWritePutsProof(call: Expr, paths: map<string, string>, st: State, o: Oracle, j: Json)
    requires IsWriteStatement(ExprStmt(call), paths) && IsPlainReceiver(call.func.owner)
    ensures
      match Put(call, st, o)
      case None => true
      case Some((file, text)) => IsFileOf(call.func.owner, file) && IsProofText(text, [Plain("\n")], st)
    ensures PutsJson(call, st, o, j) <==> Writes(st, j) && CanEvaluate(call.func.owner, st)
  {
    ReceiverOnlyReads(call, paths, st, o);
    ArgumentIsPrinted(call.args[0], st, o);
    match Put(call, st, o)
    case None =>
    case Some((_, text)) => WritesOnce(st, text, j);
  }

  /** What is put is the JSON of `proof` as it was before the statement, whatever the oracle. */
  ghost predicate WritesProof(call: Expr) {
    forall st, o | Put(call, st, o).Some? :: IsProofText(Put(call, st, o).value.1, [Plain("\n")], st)
  }

  /** An oracle whose calls change `proof`. */
  ghost function Changing(o: Oracle): Oracle {
    o.(call := (e: Expr, st: State) => Ok(NoneV, st.(env := st.env["proof" := BoolV(true)])))
  }

  lemma ChangedIsPut(call: Expr, paths: map<string, string>, o: Oracle)
    requires IsWriteStatement(ExprStmt(call), paths) && !IsPlainReceiver(call.func.owner)
    ensures
      var st := State(map["proof" := NoneV], map[], 0);
      Put(call, st, Changing(o)).Some? && !IsProofText(Put(call, st, Changing(o)).value.1, [Plain("\n")], st)
  {
    var st := State(map["proof" := NoneV], map[], 0);
    var after := st.(env := st.env["proof" := BoolV(true)]);
    PathWithKeywordsIsNotNamed(call.func.owner);
    assert Receiver(call.func.owner, st, Changing(o)) == Some((Held(NoneV), after));
    assert Writes(after, JAtom(BoolV(true)));
    ArgumentIsPrinted(call.args[0], after, Changing(o));
  }

  /** The exact condition on the receiver: a call of `Path` with keywords can do anything. */
  lemma WriteIsFaithfulIff(call: Expr, paths: map<string, string>, o: Oracle)
    requires IsWriteStatement(ExprStmt(call), paths)
    ensures WritesProof(call) <==> IsPlainReceiver(call.func.owner)
  {
    if IsPlainReceiver(call.func.owner) {
      forall st, o | Put(call, st, o).Some? ensures IsProofText(Put(call, st, o).value.1, [Plain("\n")], st) {
        CanonicalWritePutsProof(call, paths, st, o, JAtom(NoneV));
      }
    } else {
      ChangedIsPut(call, paths, o);
    }
  }

  lemma {:induction false} FoundWritesAreStatements(body: Script, n: nat)
    requires n <= |body|
    ensures forall w | w in WritesIn(body, n) ::
      w.script == body && w.index < n && body[w.index] == ExprStmt(w.call) && IsWriteStatement(body[w.index], PathsAfter(body, w.index))
    decreases n
  {
    if n > 0 { FoundWritesAreStatements(body, n - 1); }
  }

  /** What the scan reports is a write statement. */
  lemma {:induction false} WriteIsStatement(scripts: seq<Script>, n: nat, w: ProofWrite)
    requires n <= |scripts| && w in WritesOf(scripts, n)
    ensures w.script in scripts && w.index < |w.script| && w.script[w.index] == ExprStmt(w.call)
    ensures IsWriteStatement(w.script[w.index], PathsAfter(w.script, w.index))
    decreases n
  {
    FoundWritesAreStatements(scripts[n - 1], |scripts[n - 1]|);
    if w !in WritesIn(scripts[n - 1], |scripts[n - 1]|) { WriteIsStatement(scripts, n - 1, w); }
  }

  // ----- soundness -----

  /** The script runs up to its capture in state `before`, and on to its write statement, which
      puts `text` in `file`. */
  ghost predicate RunPuts(
      w: ProofWrite, c: ProofCapture, initial: State, o: Oracle, before: State, file: File, text: Text)
  {
    && c.index <= w.index <= |w.script|
    && Run(w.script, c.index, initial, o) == Some(before) && Closed(before)
    && Run(w.script, w.index, initial, o).Some?
    && Put(w.call, Run(w.script, w.index, initial, o).value, o) == Some((file, text))
  }

  /** What it puts there is the JSON `j`, and a newline. */
  ghost predicate RunWrites(w: ProofWrite, c: ProofCapture, initial: State, o: Oracle, before: State, j: Json) {
    exists file :: RunPuts(w, c, initial, o, before, file, [Dumped(j), Plain("\n")])
  }

  /** The capture only binds names, `proof` last as a plain name (in particular when it has one
      target), and the write calls `Path`, if at all, without keywords. */
  predicate CarriesProof(w: ProofWrite, c: ProofCapture) {
    KeepsProof(TargetsAt(w.script, c.index)) && (w.call.Call? && w.call.func.Attribute? ==> IsPlainReceiver(w.call.func.owner))
  }

  lemma RunWritesProof(
      scripts: seq<Script>, w: ProofWrite, c: ProofCapture, initial: State, o: Oracle, before: State, file: File, text: Text)
      returns (j: Json)
    requires Accepts(scripts, w, c) && CarriesProof(w, c)
    requires RunPuts(w, c, initial, o, before, file, text)
    ensures text == [Dumped(j), Plain("\n")] && Writes(Run(w.script, w.index, initial, o).value, j)
    ensures w.call.func.owner.Call? ==> file == Named(RUNNER_PROOF_PATH)
  {
    WriteIsStatement(scripts, |scripts|, w);
    CanonicalWritePutsProof(
      w.call, PathsAfter(w.script, w.index), Run(w.script, w.index, initial, o).value, o, JAtom(NoneV));
    j := text[0].json;
  }

  /** Soundness: in every run of an accepted script, with any oracle and initial state, the
      text put in the file is JSON and a newline, and the JSON shows under "qemu" exactly what
      the object bound to `qemu` held just before the capture statement. */
  lemma AcceptedScriptWritesQemu(
      scripts: seq<Script>, w: ProofWrite, c: ProofCapture, initial: State, o: Oracle, before: State, file: File, text: Text)
      returns (j: Json)
    requires Accepts(scripts, w, c) && CarriesProof(w, c)
    requires RunPuts(w, c, initial, o, before, file, text)
    ensures text == [Dumped(j), Plain("\n")] && ShowsQemuOf(before, j)
    ensures w.call.func.owner.Call? ==> file == Named(RUNNER_PROOF_PATH)
  {
    j := RunWritesProof(scripts, w, c, initial, o, before, file, text);
    CaptureIsStatement(w.script, |w.script|);
    var d :| IsCaptureStatement(w.script[c.index], d);
    CaptureShowsQemu(w.script[c.index], d, before, o, j);
  }

  /** The same for the JSON of a run. */
  lemma AcceptedScriptShowsQemu(
      scripts: seq<Script>, w: ProofWrite, c: ProofCapture, initial: State, o: Oracle, before: State, j: Json)
    requires Accepts(scripts, w, c) && CarriesProof(w, c)
    requires RunWrites(w, c, initial, o, before, j)
    ensures ShowsQemuOf(before, j)
  {
    var file :| RunPuts(w, c, initial, o, before, file, [Dumped(j), Plain("\n")]);
    var shown := AcceptedScriptWritesQemu(scripts, w, c, initial, o, before, file, [Dumped(j), Plain("\n")]);
    assert [Dumped(j), Plain("\n")][0] == [Dumped(shown), Plain("\n")][0];
  }

  function TargetsAt(body: Script, i: nat): seq<Expr> {
    if i < |body| && body[i].Assign? then body[i].targets else []
  }
}
