/** When the status that is written reports QEMU: runs whose calls, unknown statements and
    stores leave a few names, and the status of the object `qemu` names, alone. */
module ProofFlowReports {
  import opened Wrappers
  import opened PythonAst
  import opened PythonEval
  import opened PythonFiles
  import opened ProofFlow
  import opened ProofFlowSoundness
  import opened ProofFlowMeaning
  import opened ProofFlowLimits
  import opened ProofFlowAccepted

  // ----- gentle oracles -----

  /** `x` keeps its value, if it has one. */
  predicate KeepsName(st: State, st': State, x: string) {
    x in st.env ==> x in st'.env && st'.env[x] == st.env[x]
  }

  /** The object that `qemu` names has this status. */
  predicate HasStatus(st: State, a: nat, v: Value) {
    a in st.heap && st.heap[a].DictObj? && StrV("status") in st.heap[a].items && st.heap[a].items[StrV("status")] == v
  }

  /** The object that `qemu` names keeps its status, if it has one. */
  ghost predicate KeepsStatus(st: State, st': State) {
    "qemu" in st.env && st.env["qemu"].Ref? ==> forall v | HasStatus(st, st.env["qemu"].addr, v) :: HasStatus(st', st.env["qemu"].addr, v)
  }

  /** The names keep their values, and with `qemu` among them its object keeps its status. */
  ghost predicate Leaves(st: State, st': State, names: set<string>) {
    && (forall x | x in names :: KeepsName(st, st', x))
    && ("qemu" in names ==> KeepsStatus(st, st'))
  }

  /** Whatever else they do, calls, computed keys, stores and unknown statements leave the
      names alone. */
  ghost predicate Gentle(o: Oracle, names: set<string>) {
    && (forall e, st :: o.call(e, st).Ok? ==> Leaves(st, o.call(e, st).st, names))
    && (forall acc, k, v, st :: o.entry(acc, k, v, st).Some? ==> Leaves(st, o.entry(acc, k, v, st).value.1, names))
    && (forall t, v, st :: o.store(t, v, st).Some? ==> Leaves(st, o.store(t, v, st).value, names))
    && (forall code, st :: o.stmt(code, st).Some? ==> Leaves(st, o.stmt(code, st).value, names))
  }

  lemma LeavesStep(a: State, b: State, c: State, names: set<string>)
    requires Leaves(a, b, names) && Leaves(b, c, names)
    ensures Leaves(a, c, names)
  {
    forall x | x in names ensures KeepsName(a, c, x) {
      assert KeepsName(a, b, x) && KeepsName(b, c, x);
    }
    if "qemu" in names {
      assert KeepsName(a, b, "qemu");
    }
  }

  lemma LeavesFewer(a: State, b: State, names: set<string>, fewer: set<string>)
    requires Leaves(a, b, names) && fewer <= names
    ensures Leaves(a, b, fewer)
  {}

  /** Growing the heap leaves everything alone. */
  lemma GrowingLeaves(a: State, b: State, names: set<string>)
    requires b.env == a.env && Extends(a.heap, b.heap)
    ensures Leaves(a, b, names)
  {}

  lemma {:induction false} EvalLeaves(e: Expr, st: State, o: Oracle, names: set<string>)
    requires Gentle(o, names)
    ensures Eval(e, st, o).Ok? ==> Leaves(st, Eval(e, st, o).st, names)
    decreases e, 1
  {
    match e
    case Name(_) => GrowingLeaves(st, st, names);
    case Const(_) => GrowingLeaves(st, st, names);
    case Dict(entries) =>
      EntriesLeave(entries, map[], st, o, names);
      if Eval(e, st, o).Ok? {
        var st1 := EvalEntries(entries, map[], st, o).value.1;
        GrowingLeaves(st1, Eval(e, st, o).st, names);
        LeavesStep(st, st1, Eval(e, st, o).st, names);
      }
    case BoolOp(op, operands) => BoolLeaves(op, operands, st, o, names);
    case Compare(first, ops, comparators) =>
      EvalLeaves(first, st, o, names);
      if Eval(e, st, o).Ok? {
        var Ok(v, st1) := Eval(first, st, o);
        ChainLeaves(v, ops, comparators, st1, o, names);
        LeavesStep(st, st1, Eval(e, st, o).st, names);
      }
    case IfExp(test, body, orelse) =>
      EvalLeaves(test, st, o, names);
      if Eval(e, st, o).Ok? {
        var st1 := Eval(test, st, o).st;
        EvalLeaves(body, st1, o, names);
        EvalLeaves(orelse, st1, o, names);
        LeavesStep(st, st1, Eval(e, st, o).st, names);
      }
    case Subscript(container, index) => PairLeaves(e, container, index, st, o, names);
    case Attribute(owner, _) =>
      EvalLeaves(owner, st, o, names);
      if Eval(e, st, o).Ok? {
        var st1 := Eval(owner, st, o).st;
        GrowingLeaves(st1, Eval(e, st, o).st, names);
        LeavesStep(st, st1, Eval(e, st, o).st, names);
      }
    case BinOp(left, _, right) => PairLeaves(e, left, right, st, o, names);
    case Display(_, items) =>
      ItemsLeave(items, st, o, names);
      if Eval(e, st, o).Ok? {
        var st1 := EvalItems(items, st, o).value.1;
        GrowingLeaves(st1, Eval(e, st, o).st, names);
        LeavesStep(st, st1, Eval(e, st, o).st, names);
      }
    case Call(_, _, _) =>
    case Effect(_, _) =>
  }

  lemma {:induction false} PairLeaves(e: Expr, a: Expr, b: Expr, st: State, o: Oracle, names: set<string>)
    requires a < e && b < e && Gentle(o, names)
    ensures EvalPair(e, a, b, st, o).Ok? ==> Leaves(st, EvalPair(e, a, b, st, o).st, names)
    decreases e, 0
  {
    if EvalPair(e, a, b, st, o).Ok? {
      var st1 := Eval(a, st, o).st;
      var st2, st3 := Eval(b, st1, o).st, EvalPair(e, a, b, st, o).st;
      EvalLeaves(a, st, o, names);
      EvalLeaves(b, st1, o, names);
      GrowingLeaves(st2, st3, names);
      LeavesStep(st, st1, st2, names);
      LeavesStep(st, st2, st3, names);
    }
  }

  lemma {:induction false} ItemsLeave(es: seq<Expr>, st: State, o: Oracle, names: set<string>)
    requires Gentle(o, names)
    ensures EvalItems(es, st, o).Some? ==> Leaves(st, EvalItems(es, st, o).value.1, names)
    decreases es, 0
  {
    if es == [] {
      GrowingLeaves(st, st, names);
    } else if EvalItems(es, st, o).Some? {
      var st1 := Eval(es[0], st, o).st;
      EvalLeaves(es[0], st, o, names);
      ItemsLeave(es[1..], st1, o, names);
      LeavesStep(st, st1, EvalItems(es, st, o).value.1, names);
    }
  }

  lemma {:induction false} BoolLeaves(op: BoolOperator, es: seq<Expr>, st: State, o: Oracle, names: set<string>)
    requires Gentle(o, names)
    ensures EvalBool(op, es, st, o).Ok? ==> Leaves(st, EvalBool(op, es, st, o).st, names)
    decreases es, 0
  {
    if EvalBool(op, es, st, o).Ok? {
      var Ok(v, st1) := Eval(es[0], st, o);
      EvalLeaves(es[0], st, o, names);
      if !(|es| == 1 || Truthy(v, st1.heap, o) == op.Or?) {
        BoolLeaves(op, es[1..], st1, o, names);
        LeavesStep(st, st1, EvalBool(op, es, st, o).st, names);
      }
    }
  }

  lemma {:induction false} ChainLeaves(
      v: Value, ops: seq<CompareOperator>, es: seq<Expr>, st: State, o: Oracle, names: set<string>)
    requires Gentle(o, names)
    ensures EvalChain(v, ops, es, st, o).Ok? ==> Leaves(st, EvalChain(v, ops, es, st, o).st, names)
    decreases es, 0
  {
    if EvalChain(v, ops, es, st, o).Ok? {
      var Ok(w, st1) := Eval(es[0], st, o);
      EvalLeaves(es[0], st, o, names);
      if |es| > 1 {
        ChainLeaves(w, ops[1..], es[1..], st1, o, names);
        if EvalChain(v, ops, es, st, o).st != st1 {
          LeavesStep(st, st1, EvalChain(v, ops, es, st, o).st, names);
        }
      }
    }
  }

  lemma {:induction false} EntriesLeave(entries: seq<Entry>, acc: map<Value, Value>, st: State, o: Oracle, names: set<string>)
    requires Gentle(o, names)
    ensures EvalEntries(entries, acc, st, o).Some? ==> Leaves(st, EvalEntries(entries, acc, st, o).value.1, names)
    decreases entries, 0
  {
    if entries == [] {
      GrowingLeaves(st, st, names);
    } else if EvalEntries(entries, acc, st, o).Some? {
      var (acc1, st1) := EvalEntry(entries[0], acc, st, o).value;
      EntryLeaves(entries[0], acc, st, o, names);
      EntriesLeave(entries[1..], acc1, st1, o, names);
      LeavesStep(st, st1, EvalEntries(entries, acc, st, o).value.1, names);
    }
  }

  lemma {:induction false} EntryLeaves(entry: Entry, acc: map<Value, Value>, st: State, o: Oracle, names: set<string>)
    requires Gentle(o, names)
    ensures EvalEntry(entry, acc, st, o).Some? ==> Leaves(st, EvalEntry(entry, acc, st, o).value.1, names)
    decreases entry, 0
  {
    if EvalEntry(entry, acc, st, o).Some? {
      if IsConstantKey(entry.key) {
        EvalLeaves(entry.value, st, o, names);
      } else {
        var st0 := st;
        GrowingLeaves(st, st, names);
        if entry.key.Some? {
          EvalLeaves(entry.key.value, st, o, names);
          st0 := Eval(entry.key.value, st, o).st;
        }
        EvalLeaves(entry.value, st0, o, names);
        var st1 := Eval(entry.value, st0, o).st;
        LeavesStep(st, st0, st1, names);
        LeavesStep(st, st1, EvalEntry(entry, acc, st, o).value.1, names);
      }
    }
  }

  // ----- statements -----

  lemma {:induction false} StoreOneLeaves(t: Expr, v: Value, st: State, o: Oracle, names: set<string>, kept: set<string>)
    requires Gentle(o, names) && kept <= names && forall x | x in kept :: !Mentions(t, x)
    ensures StoreOne(t, v, st, o).Some? ==> Leaves(st, StoreOne(t, v, st, o).value, kept)
    decreases t, 1
  {
    if t.Name? {
    } else if IsUnpacking(t) && IsPlainIterable(v, st.heap) {
      if Elements(v, st.heap, |t.items|, o).Some? {
        StoreEachLeaves(t.items, Elements(v, st.heap, |t.items|, o).value, st, o, names, kept);
      }
    } else if o.store(t, v, st).Some? {
      LeavesFewer(st, o.store(t, v, st).value, names, kept);
    }
  }

  lemma {:induction false} StoreEachLeaves(
      ts: seq<Expr>, vs: seq<Value>, st: State, o: Oracle, names: set<string>, kept: set<string>)
    requires Gentle(o, names) && kept <= names && |ts| == |vs| && forall x | x in kept :: !AnyMentions(ts, x)
    ensures StoreEach(ts, vs, st, o).Some? ==> Leaves(st, StoreEach(ts, vs, st, o).value, kept)
    decreases ts, 0
  {
    if ts == [] {
      GrowingLeaves(st, st, kept);
    } else if StoreEach(ts, vs, st, o).Some? {
      var st1 := StoreOne(ts[0], vs[0], st, o).value;
      StoreOneLeaves(ts[0], vs[0], st, o, names, kept);
      StoreEachLeaves(ts[1..], vs[1..], st1, o, names, kept);
      LeavesStep(st, st1, StoreEach(ts, vs, st, o).value, kept);
    }
  }

  lemma {:induction false} StoreLeaves(
      targets: seq<Expr>, v: Value, st: State, o: Oracle, names: set<string>, kept: set<string>)
    requires Gentle(o, names) && kept <= names && forall x | x in kept :: !AnyMentions(targets, x)
    ensures Store(targets, v, st, o).Some? ==> Leaves(st, Store(targets, v, st, o).value, kept)
    decreases |targets|
  {
    if targets == [] {
      GrowingLeaves(st, st, kept);
    } else if Store(targets, v, st, o).Some? {
      var st1 := StoreOne(targets[0], v, st, o).value;
      StoreOneLeaves(targets[0], v, st, o, names, kept);
      StoreLeaves(targets[1..], v, st1, o, names, kept);
      LeavesStep(st, st1, Store(targets, v, st, o).value, kept);
    }
  }

  /** The last target to bind `x` is the plain name, so `x` ends up with the value. */
  lemma {:induction false} StoreEnds(targets: seq<Expr>, v: Value, st: State, o: Oracle, names: set<string>, x: string)
    requires Gentle(o, names) && x in names && EndsOnName(targets, x) && Store(targets, v, st, o).Some?
    ensures x in Store(targets, v, st, o).value.env && Store(targets, v, st, o).value.env[x] == v
    decreases |targets|
  {
    var st1 := StoreOne(targets[0], v, st, o).value;
    if EndsOnName(targets[1..], x) {
      StoreEnds(targets[1..], v, st1, o, names, x);
    } else {
      StoreLeaves(targets[1..], v, st1, o, names, {x});
      assert KeepsName(st1, Store(targets, v, st, o).value, x);
    }
  }

  /** An assignment binds none of the names; other statements are the oracle's. */
  predicate Spares(s: Stmt, kept: set<string>) {
    s.Assign? ==> forall x | x in kept :: !AnyMentions(s.targets, x)
  }

  lemma ExecLeaves(s: Stmt, st: State, o: Oracle, names: set<string>, kept: set<string>)
    requires Gentle(o, names) && kept <= names && Spares(s, kept)
    ensures Exec(s, st, o).Some? ==> Leaves(st, Exec(s, st, o).value, kept)
  {
    if Exec(s, st, o).Some? {
      var st' := Exec(s, st, o).value;
      match s
      case Assign(targets, rhs) =>
        var Ok(v, st1) := Eval(rhs, st, o);
        EvalLeaves(rhs, st, o, names);
        LeavesFewer(st, st1, names, kept);
        StoreLeaves(targets, v, st1, o, names, kept);
        LeavesStep(st, st1, st', kept);
      case ExprStmt(e) =>
        EvalLeaves(e, st, o, names);
        LeavesFewer(st, st', names, kept);
      case OtherStmt(code) => LeavesFewer(st, st', names, kept);
    }
  }

  lemma {:induction false} RunLeaves(
      body: Script, m: nat, n: nat, initial: State, o: Oracle, names: set<string>, kept: set<string>)
    requires Gentle(o, names) && kept <= names
    requires m <= n <= |body| && forall i | m <= i < n :: Spares(body[i], kept)
    requires Run(body, n, initial, o).Some?
    ensures Run(body, m, initial, o).Some?
    ensures Leaves(Run(body, m, initial, o).value, Run(body, n, initial, o).value, kept)
    decreases n
  {
    if m == n {
      GrowingLeaves(Run(body, n, initial, o).value, Run(body, n, initial, o).value, kept);
    } else {
      RunLeaves(body, m, n - 1, initial, o, names, kept);
      var st := Run(body, n - 1, initial, o).value;
      ExecLeaves(body[n - 1], st, o, names, kept);
      LeavesStep(Run(body, m, initial, o).value, st, Run(body, n, initial, o).value, kept);
    }
  }

  // ----- the status written -----

  /** `j` shows the text `s` as the status of "qemu". */
  predicate ShowsText(j: Json, s: string) {
    && j.JDict? && StrV("qemu") in j.members && j.members[StrV("qemu")].JDict?
    && StrV("status") in j.members[StrV("qemu")].members
    && j.members[StrV("qemu")].members[StrV("status")] == JAtom(StrV(s))
  }

  /** Statement `k` assigns the literal to `qemu`, which nothing binds again until `n`; entry
      `i` is the status that is judged and kept. */
  predicate IsQemuLiteral(body: Script, k: nat, n: nat, lit: seq<Entry>, i: nat) {
    && k < n <= |body| && AssignsDict(body[k], "qemu") && OnlyNames(body[k].targets) && body[k].rhs == Dict(lit)
    && StatusSettled(lit, i) && forall m | k < m < n :: Spares(body[m], {"qemu"})
  }

  lemma SparedIsNotAssigned(s: Stmt)
    requires Spares(s, {"qemu"})
    ensures !AssignsDict(s, "qemu")
  {
    if AssignsDict(s, "qemu") {
      var t :| t in s.targets && IsName(t, "qemu");
      MentionedWithin(s.targets, t);
    }
  }

  lemma {:induction false} MentionedWithin(targets: seq<Expr>, t: Expr)
    requires t in targets && IsName(t, "qemu")
    ensures AnyMentions(targets, "qemu")
    decreases |targets|
  {
    assert targets == [targets[0]] + targets[1..];
    if targets[0] != t { MentionedWithin(targets[1..], t); }
  }

  lemma LiteralIsLast(body: Script, k: nat, n: nat, lit: seq<Entry>, i: nat)
    requires IsQemuLiteral(body, k, n, lit, i)
    ensures IsLastLiteral(body, n, "qemu", k)
  {
    forall m | k < m < n ensures !AssignsDict(body[m], "qemu") { SparedIsNotAssigned(body[m]); }
  }

  /** The object the literal made is still `qemu`'s at `n`, with the status it was given. */
  lemma LiteralIsUndisturbed(
      body: Script, k: nat, n: nat, lit: seq<Entry>, i: nat, initial: State, o: Oracle, names: set<string>)
    requires IsQemuLiteral(body, k, n, lit, i) && Gentle(o, names) && "qemu" in names
    requires Run(body, n, initial, o).Some?
    ensures Run(body, k, initial, o).Some?
    ensures QemuUndisturbed(lit, Run(body, k, initial, o).value, Run(body, n, initial, o).value, o)
  {
    RunLeaves(body, k + 1, n, initial, o, names, {"qemu"});
    var atLiteral, after := Run(body, k, initial, o).value, Run(body, k + 1, initial, o).value;
    var Ok(qemu, made) := Eval(body[k].rhs, atLiteral, o);
    StoreNames(body[k].targets, qemu, made, "qemu", o);
    LastStatusIsKept(lit, i, map[], atLiteral, o);
    var status := made.heap[qemu.addr].items[StrV("status")];
    assert KeepsName(after, Run(body, n, initial, o).value, "qemu");
    assert HasStatus(after, qemu.addr, status);
  }

  /** Entry `i` of the literal sees `qemu_usable` as it was before the literal. */
  lemma EntrySeesUsable(lit: seq<Entry>, i: nat, st: State, o: Oracle, names: set<string>)
    requires i < |lit| && Gentle(o, names) && "qemu_usable" in names && "qemu_usable" in st.env
    requires StateAtEntry(lit, i, map[], st, o).Some?
    ensures KeepsName(st, StateAtEntry(lit, i, map[], st, o).value, "qemu_usable")
  {
    EntriesLeave(lit[..i], map[], st, o, names);
  }

  /** With a gentle oracle, the status written follows what `qemu_usable` was before the literal. */
  lemma StatusFollowsUsable(
      scripts: seq<Script>, w: ProofWrite, c: ProofCapture, k: nat, lit: seq<Entry>, i: nat, initial: State, o: Oracle,
      before: State, j: Json, yes: string, no: string, names: set<string>, usable: bool)
    requires Accepts(scripts, w, c) && CarriesProof(w, c) && JudgesEarlierLiteral(w, c)
    requires IsQemuLiteral(w.script, k, c.index, lit, i)
    requires c.status == IfExp(Name("qemu_usable"), Const(StrConst(yes)), Const(StrConst(no))) && yes != no
    requires Gentle(o, names) && {"qemu", "qemu_usable"} <= names && RunWrites(w, c, initial, o, before, j)
    requires
      match Run(w.script, k, initial, o)
      case None => true
      case Some(at) => "qemu_usable" in at.env && at.env["qemu_usable"] == BoolV(usable)
    ensures ShowsText(j, if usable then yes else no)
  {
    LiteralIsLast(w.script, k, c.index, lit, i);
    LiteralIsUndisturbed(w.script, k, c.index, lit, i, initial, o, names);
    var mid := WrittenStringTellsUsability(scripts, w, c, k, lit, i, initial, o, before, j, yes, no);
    EntrySeesUsable(lit, i, Run(w.script, k, initial, o).value, o, names);
  }

  // ----- scripts that report QEMU -----

  const REPORTED: set<string> := {"qemu", "qemu_usable"}

  /** What the required expression says of a state. */
  predicate IsUsable(st: State)
    requires KnowsQemu(st)
  {
    st.env["qemu_available"].b && st.env["qemu_version"].s != ""
  }

  predicate KnowsQemu(st: State) {
    && "qemu_available" in st.env && st.env["qemu_available"].BoolV?
    && "qemu_version" in st.env && st.env["qemu_version"].StrV?
  }

  /** Statement `u` decides `qemu_usable` as required, and nothing binds it again until `k`. */
  predicate DecidesUsable(body: Script, u: nat, k: nat) {
    && u < k <= |body| && AssignsUsable(body[u]) && EndsOnName(body[u].targets, "qemu_usable")
    && forall m | u < m < k :: Spares(body[m], {"qemu_usable"})
  }

  lemma DecisionStays(body: Script, u: nat, k: nat, initial: State, o: Oracle, names: set<string>, at: State)
    requires DecidesUsable(body, u, k) && Gentle(o, names) && "qemu_usable" in names
    requires Run(body, k, initial, o).Some? && Run(body, u, initial, o) == Some(at) && KnowsQemu(at)
    ensures
      var st := Run(body, k, initial, o).value;
      "qemu_usable" in st.env && st.env["qemu_usable"] == BoolV(IsUsable(at))
  {
    RunLeaves(body, u + 1, k, initial, o, names, {"qemu_usable"});
    UsableIsAvailableWithVersion(body[u].rhs, at, o);
    StoreEnds(body[u].targets, BoolV(IsUsable(at)), at, o, names, "qemu_usable");
    assert KeepsName(Run(body, u + 1, initial, o).value, Run(body, k, initial, o).value, "qemu_usable");
  }

  /** End to end, for scripts that only do not bind the two names again in between, and runs
      in which nothing hidden changes them or the status: the status written says whether
      QEMU was found with a version when `qemu_usable` was decided. */
  lemma DecidedScriptReportsQemu(
      scripts: seq<Script>, w: ProofWrite, c: ProofCapture, u: nat, k: nat, lit: seq<Entry>, i: nat, initial: State,
      o: Oracle, at: State, before: State, j: Json, yes: string, no: string)
    requires Accepts(scripts, w, c) && CarriesProof(w, c) && JudgesEarlierLiteral(w, c)
    requires DecidesUsable(w.script, u, k) && IsQemuLiteral(w.script, k, c.index, lit, i)
    requires c.status == IfExp(Name("qemu_usable"), Const(StrConst(yes)), Const(StrConst(no))) && yes != no
    requires Gentle(o, REPORTED) && RunWrites(w, c, initial, o, before, j)
    requires Run(w.script, u, initial, o) == Some(at) && KnowsQemu(at)
    ensures ShowsText(j, if IsUsable(at) then yes else no)
  {
    RunsUpTo(w.script, k, c.index, initial, o);
    DecisionStays(w.script, u, k, initial, o, REPORTED, at);
    StatusFollowsUsable(scripts, w, c, k, lit, i, initial, o, before, j, yes, no, REPORTED, IsUsable(at));
  }

  // ----- the exact condition -----

  const INPUTS: set<string> := {"qemu_available", "qemu_version"}
  const WATCHED: set<string> := REPORTED + INPUTS

  /** The script binds the inputs nowhere before `n`, and `qemu_usable` only at `u`, as required. */
  predicate DecidesOnce(body: Script, u: nat, n: nat) {
    && u < n <= |body| && AssignsUsable(body[u]) && EndsOnName(body[u].targets, "qemu_usable")
    && (forall m | 0 <= m < n :: Spares(body[m], INPUTS))
    && forall m | 0 <= m < n && m != u :: Spares(body[m], {"qemu_usable"})
  }

  /** In every run that a gentle oracle allows, the status written says whether QEMU was found
      with a version. */
  ghost predicate Reports(w: ProofWrite, c: ProofCapture, yes: string, no: string) {
    forall initial: State, o: Oracle, before: State, j: Json
      | KnowsQemu(initial) && Gentle(o, WATCHED) && RunWrites(w, c, initial, o, before, j) ::
      ShowsText(j, if IsUsable(initial) then yes else no)
  }

  lemma GentleFewer(o: Oracle, names: set<string>, fewer: set<string>)
    requires Gentle(o, names) && fewer <= names
    ensures Gentle(o, fewer)
  {
    forall e, st | o.call(e, st).Ok? ensures Leaves(st, o.call(e, st).st, fewer) {
      LeavesFewer(st, o.call(e, st).st, names, fewer);
    }
    forall acc, k, v, st | o.entry(acc, k, v, st).Some? ensures Leaves(st, o.entry(acc, k, v, st).value.1, fewer) {
      LeavesFewer(st, o.entry(acc, k, v, st).value.1, names, fewer);
    }
    forall t, v, st | o.store(t, v, st).Some? ensures Leaves(st, o.store(t, v, st).value, fewer) {
      LeavesFewer(st, o.store(t, v, st).value, names, fewer);
    }
    forall code, st | o.stmt(code, st).Some? ensures Leaves(st, o.stmt(code, st).value, fewer) {
      LeavesFewer(st, o.stmt(code, st).value, names, fewer);
    }
  }

  lemma InputsStay(body: Script, u: nat, n: nat, initial: State, o: Oracle)
    requires DecidesOnce(body, u, n) && Gentle(o, WATCHED) && KnowsQemu(initial) && Run(body, n, initial, o).Some?
    ensures Run(body, u, initial, o).Some? && KnowsQemu(Run(body, u, initial, o).value)
    ensures IsUsable(Run(body, u, initial, o).value) == IsUsable(initial)
  {
    RunsUpTo(body, u, n, initial, o);
    RunLeaves(body, 0, u, initial, o, WATCHED, INPUTS);
    var at := Run(body, u, initial, o).value;
    assert KeepsName(initial, at, "qemu_available") && KeepsName(initial, at, "qemu_version");
  }

  lemma EarlyDecisionReports(
      scripts: seq<Script>, w: ProofWrite, c: ProofCapture, u: nat, k: nat, lit: seq<Entry>, i: nat, yes: string, no: string)
    requires Accepts(scripts, w, c) && CarriesProof(w, c) && JudgesEarlierLiteral(w, c)
    requires DecidesOnce(w.script, u, c.index) && IsQemuLiteral(w.script, k, c.index, lit, i) && u < k
    requires c.status == IfExp(Name("qemu_usable"), Const(StrConst(yes)), Const(StrConst(no))) && yes != no
    ensures Reports(w, c, yes, no)
  {
    forall initial: State, o: Oracle, before: State, j: Json
      | KnowsQemu(initial) && Gentle(o, WATCHED) && RunWrites(w, c, initial, o, before, j)
      ensures ShowsText(j, if IsUsable(initial) then yes else no)
    {
      InputsStay(w.script, u, c.index, initial, o);
      GentleFewer(o, WATCHED, REPORTED);
      DecidedScriptReportsQemu(
        scripts, w, c, u, k, lit, i, initial, o, Run(w.script, u, initial, o).value, before, j, yes, no);
    }
  }

  // ----- a run of a script that decides too late -----

  /** Nothing hidden changes anything. */
  ghost const PEACEFUL: Oracle := MEDDLER.(store := (t: Expr, v: Value, st: State) => Some(st))

  lemma PeacefulIsGentle(names: set<string>)
    ensures IsEasy(PEACEFUL) && Gentle(PEACEFUL, names)
  {
    forall st: State ensures Leaves(st, st, names) { GrowingLeaves(st, st, names); }
  }

  /** The statement takes nothing apart, and its expressions are as Python's grammar has them. */
  predicate IsRunnable(s: Stmt) {
    match s
    case Assign(targets, rhs) => WellFormed(Walk(rhs)) && forall t | t in targets :: !t.Display?
    case ExprStmt(e) => WellFormed(Walk(e))
    case OtherStmt(_) => true
  }

  function NamesRead(s: Stmt): set<string> {
    match s case Assign(_, rhs) => NamesIn(Walk(rhs)) case ExprStmt(e) => NamesIn(Walk(e)) case OtherStmt(_) => {}
  }

  function AllNamesRead(body: Script): set<string> {
    if body == [] then {} else AllNamesRead(body[..|body| - 1]) + NamesRead(body[|body| - 1])
  }

  lemma {:induction false} ReadSomewhere(body: Script, i: nat)
    requires i < |body|
    ensures NamesRead(body[i]) <= AllNamesRead(body)
    decreases |body|
  {
    if i < |body| - 1 { ReadSomewhere(body[..|body| - 1], i); }
  }

  /** A tame state whose object at address 0 is the empty dict. */
  ghost predicate IsReady(st: State, names: set<string>) {
    IsTame(st) && st.heap[0] == DictObj(map[]) && names <= st.env.Keys
  }

  lemma {:induction false} StoreStaysReady(targets: seq<Expr>, v: Value, st: State, names: set<string>)
    requires (forall t | t in targets :: !t.Display?) && IsReady(st, names) && RenderableEmptied(st.heap, v)
    ensures Store(targets, v, st, PEACEFUL).Some? && IsReady(Store(targets, v, st, PEACEFUL).value, names)
    decreases |targets|
  {
    if targets != [] {
      assert targets[0] in targets;
      var st1 := if targets[0].Name? then st.(env := st.env[targets[0].id := v]) else st;
      assert StoreOne(targets[0], v, st, PEACEFUL) == Some(st1);
      StoreStaysReady(targets[1..], v, st1, names);
    }
  }

  lemma ExecStaysReady(s: Stmt, st: State, names: set<string>)
    requires IsRunnable(s) && IsReady(st, names) && NamesRead(s) <= names
    ensures Exec(s, st, PEACEFUL).Some? && IsReady(Exec(s, st, PEACEFUL).value, names)
  {
    PeacefulIsGentle({});
    match s
    case Assign(targets, rhs) =>
      ReadsAreBound(rhs, st, names);
      EvalSucceeds(rhs, st, PEACEFUL);
      var Ok(v, st1) := Eval(rhs, st, PEACEFUL);
      StoreStaysReady(targets, v, st1, names);
    case ExprStmt(e) =>
      ReadsAreBound(e, st, names);
      EvalSucceeds(e, st, PEACEFUL);
    case OtherStmt(_) =>
  }

  lemma ReadsAreBound(e: Expr, st: State, names: set<string>)
    requires NamesIn(Walk(e)) <= names <= st.env.Keys
    ensures NamesBound(Walk(e), st)
  {
    forall x | x in Walk(e) && x.Name? ensures x.id in st.env { assert x.id in NamesIn(Walk(e)); }
  }

  lemma {:induction false} RunStaysReady(body: Script, n: nat, initial: State, names: set<string>)
    requires n <= |body| && IsReady(initial, names) && AllNamesRead(body) <= names
    requires forall m | 0 <= m < n :: IsRunnable(body[m])
    ensures Run(body, n, initial, PEACEFUL).Some? && IsReady(Run(body, n, initial, PEACEFUL).value, names)
    decreases n
  {
    if n > 0 {
      RunStaysReady(body, n - 1, initial, names);
      ReadSomewhere(body, n - 1);
      ExecStaysReady(body[n - 1], Run(body, n - 1, initial, PEACEFUL).value, names);
    }
  }

  /** QEMU is there with a version, but `qemu_usable` says no. */
  function Denied(names: set<string>): State {
    State(
      map x | x in names :: if x == "qemu_available" then BoolV(true) else if x == "qemu_version" then StrV("8") else
        if x == "qemu_usable" then BoolV(false) else NoneV, map[0 := DictObj(map[])], 0)
  }

  lemma DeniedIsReady(names: set<string>)
    requires WATCHED <= names
    ensures IsReady(Denied(names), names) && KnowsQemu(Denied(names)) && IsUsable(Denied(names))
  {
    var st := Denied(names);
    forall x | x in st.env ensures RenderableEmptied(st.heap, st.env[x]) { AtomRenderable(st.heap, st.env[x]); }
  }

  function ReceiverNames(call: Expr): set<string> {
    if call.Call? && call.func.Attribute? && call.func.owner.Name? then {call.func.owner.id} else {}
  }

  /** A tame state that binds `proof` and the receiver puts some JSON. */
  lemma ReadyWrites(scripts: seq<Script>, w: ProofWrite, c: ProofCapture, st: State, names: set<string>) returns (j: Json)
    requires Accepts(scripts, w, c) && CarriesProof(w, c) && IsReady(st, names)
    requires {"proof"} + ReceiverNames(w.call) <= names
    ensures PutsJson(w.call, st, PEACEFUL, j)
  {
    assert Emptied(st.heap) == st.heap;
    j :| Renders(Emptied(st.heap), st.env["proof"], j);
    WriteIsStatement(scripts, |scripts|, w);
    CanonicalWritePutsProof(w.call, PathsAfter(w.script, w.index), st, PEACEFUL, j);
  }

  /** The run writes something. */
  lemma DeniedRunWrites(scripts: seq<Script>, w: ProofWrite, c: ProofCapture, names: set<string>)
      returns (before: State, j: Json)
    requires Accepts(scripts, w, c) && CarriesProof(w, c) && forall m | 0 <= m < w.index :: IsRunnable(w.script[m])
    requires AllNamesRead(w.script) + WATCHED + {"proof"} + ReceiverNames(w.call) <= names
    ensures RunWrites(w, c, Denied(names), PEACEFUL, before, j)
  {
    DeniedIsReady(names);
    RunStaysReady(w.script, c.index, Denied(names), names);
    RunStaysReady(w.script, w.index, Denied(names), names);
    before := Run(w.script, c.index, Denied(names), PEACEFUL).value;
    TameIsClosed(before);
    var final := Run(w.script, w.index, Denied(names), PEACEFUL).value;
    j := ReadyWrites(scripts, w, c, final, names);
    assert RunPuts(w, c, Denied(names), PEACEFUL, before, Put(w.call, final, PEACEFUL).value.0, [Dumped(j), Plain("\n")]);
  }

  lemma LateDecisionDoesNotReport(
      scripts: seq<Script>, w: ProofWrite, c: ProofCapture, u: nat, k: nat, lit: seq<Entry>, i: nat, yes: string, no: string)
    requires Accepts(scripts, w, c) && CarriesProof(w, c) && JudgesEarlierLiteral(w, c)
    requires DecidesOnce(w.script, u, c.index) && IsQemuLiteral(w.script, k, c.index, lit, i) && k <= u
    requires c.status == IfExp(Name("qemu_usable"), Const(StrConst(yes)), Const(StrConst(no))) && yes != no
    requires forall m | 0 <= m < w.index :: IsRunnable(w.script[m])
    ensures !Reports(w, c, yes, no)
  {
    var names := AllNamesRead(w.script) + WATCHED + {"proof"} + ReceiverNames(w.call);
    var before, j := DeniedRunWrites(scripts, w, c, names);
    DeniedIsReady(names);
    PeacefulIsGentle(WATCHED);
    RunsUpTo(w.script, k, c.index, Denied(names), PEACEFUL);
    RunLeaves(w.script, 0, k, Denied(names), PEACEFUL, WATCHED, {"qemu_usable"});
    assert KeepsName(Denied(names), Run(w.script, k, Denied(names), PEACEFUL).value, "qemu_usable");
    StatusFollowsUsable(scripts, w, c, k, lit, i, Denied(names), PEACEFUL, before, j, yes, no, WATCHED, false);
    assert ShowsText(j, no) && !ShowsText(j, yes);
  }

  /** The exact condition, for accepted scripts that decide `qemu_usable` once, as required, and
      leave its inputs alone: the status written reports QEMU in every run iff the decision
      stands before the literal. */
  lemma ReportsIffDecidedFirst(
      scripts: seq<Script>, w: ProofWrite, c: ProofCapture, u: nat, k: nat, lit: seq<Entry>, i: nat, yes: string, no: string)
    requires Accepts(scripts, w, c) && CarriesProof(w, c) && JudgesEarlierLiteral(w, c)
    requires DecidesOnce(w.script, u, c.index) && IsQemuLiteral(w.script, k, c.index, lit, i)
    requires c.status == IfExp(Name("qemu_usable"), Const(StrConst(yes)), Const(StrConst(no))) && yes != no
    requires forall m | 0 <= m < w.index :: IsRunnable(w.script[m])
    ensures Reports(w, c, yes, no) <==> u < k
  {
    if u < k {
      EarlyDecisionReports(scripts, w, c, u, k, lit, i, yes, no);
    } else {
      LateDecisionDoesNotReport(scripts, w, c, u, k, lit, i, yes, no);
    }
  }

  // ----- the file that is written -----

  /** `Path` of a string makes an object with that path, which `pathOf` tells. */
  ghost predicate MakesPaths(o: Oracle, pathOf: Value -> Option<string>) {
    forall e, st | PathText(e).Some? && o.call(e, st).Ok? :: pathOf(o.call(e, st).value) == PathText(e)
  }

  /** Statement `p` assigns the proof file's path to `x`, which nothing binds again until `n`. */
  predicate KeepsPath(body: Script, x: string, p: nat, n: nat) {
    && p < n <= |body| && body[p].Assign? && EndsOnName(body[p].targets, x)
    && PathText(body[p].rhs) == Some(RUNNER_PROOF_PATH)
    && forall m | p < m < n :: Spares(body[m], {x})
  }

  /** In runs in which nothing hidden changes `x`, and `Path` has its usual meaning, such a script
      writes the proof file. */
  lemma WriteGoesToProofFile(
      w: ProofWrite, c: ProofCapture, x: string, p: nat, initial: State, o: Oracle, before: State, file: File, text: Text,
      pathOf: Value -> Option<string>)
    requires w.call.Call? && w.call.func == Attribute(Name(x), "write_text") && KeepsPath(w.script, x, p, w.index)
    requires Gentle(o, {x}) && MakesPaths(o, pathOf) && RunPuts(w, c, initial, o, before, file, text)
    ensures file.Held? && pathOf(file.value) == Some(RUNNER_PROOF_PATH)
  {
    var final := Run(w.script, w.index, initial, o).value;
    RunLeaves(w.script, p + 1, w.index, initial, o, {x}, {x});
    var after := Run(w.script, p + 1, initial, o).value;
    RunsUpTo(w.script, p, p + 1, initial, o);
    var at := Run(w.script, p, initial, o).value;
    var Ok(v, st) := Eval(w.script[p].rhs, at, o);
    StoreEnds(w.script[p].targets, v, st, o, {x}, x);
    assert KeepsName(after, final, x);
  }

  // ----- the repository's own literal -----

  function IfNamed(name: string, yes: Expr, no: Expr): Expr { IfExp(Name(name), yes, no) }

  /** The literal of the manual proof workflow: a path, which may be computed by a call, a
      version, and the status. */
  const WORKFLOW_QEMU: seq<Entry> := [
    Entry(Some(Const(StrConst("path"))), IfNamed("qemu_available",
      Call(Attribute(Name("qemu_abs"), "lstrip"), [Const(StrConst("/"))], []), Const(StrConst("usr/bin/qemu-system-x86_64")))),
    Entry(Some(Const(StrConst("version"))), IfNamed("qemu_usable", Name("qemu_version"), Const(StrConst("unavailable")))),
    Entry(Some(Const(StrConst("status"))), IfNamed("qemu_usable", Const(StrConst("available")), Const(StrConst("unavailable"))))]

  lemma WorkflowLiteralIsSettled()
    ensures StatusSettled(WORKFLOW_QEMU, 2)
    ensures DictValue(WORKFLOW_QEMU, "status")
         == Some(IfExp(Name("qemu_usable"), Const(StrConst("available")), Const(StrConst("unavailable"))))
  {
    DictValueIsFirst(WORKFLOW_QEMU, 2, "status");
  }

  /** A script of the workflow's shape: anything, the decision, statements that do not bind
      `qemu_usable`, the literal, statements that do not bind `qemu`, the capture. */
  lemma WorkflowShapeReports(body: Script, u: nat, k: nat, n: nat)
    requires u < k < n <= |body| && body[k] == Assign([Name("qemu")], Dict(WORKFLOW_QEMU))
    requires AssignsUsable(body[u]) && body[u].targets == [Name("qemu_usable")]
    requires forall m | u < m < k :: Spares(body[m], {"qemu_usable"})
    requires forall m | k < m < n :: Spares(body[m], {"qemu"})
    ensures DecidesUsable(body, u, k) && IsQemuLiteral(body, k, n, WORKFLOW_QEMU, 2)
  {
    WorkflowLiteralIsSettled();
    assert IsName(body[k].targets[0], "qemu");
    assert [Name("qemu_usable")][1..] == [];
  }
}
