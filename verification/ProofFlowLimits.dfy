/** What acceptance leaves open, exactly: the targets of the capture statement, and literals
    in which the entry judged is not the entry kept. */
module ProofFlowLimits {
  import opened Wrappers
  import opened PythonAst
  import opened PythonEval
  import opened ProofFlow
  import opened ProofFlowSoundness
  import opened ProofFlowMeaning

  // ----- an oracle whose stores empty the object at address 0, and that never raises -----

  function Fresh(h: Heap, a: nat): (r: nat)
    ensures a <= r && r !in h
    decreases |h|
  {
    if a in h then
      assert (h - {a}).Keys == h.Keys - {a};
      Fresh(h - {a}, a + 1)
    else a
  }

  function Emptied(h: Heap): Heap { h[0 := DictObj(map[])] }

  /** The keys of a dict, in some order. */
  ghost function Keys(items: map<Value, Value>): (keys: seq<Value>)
    ensures |keys| == |items| && forall i | 0 <= i < |keys| :: keys[i] in items
    decreases |items|
  {
    if items == map[] then []
    else
      var k :| k in items;
      assert (items - {k}).Keys == items.Keys - {k};
      [k] + Keys(items - {k})
  }

  /** Nothing raises; a computed key is "status". */
  ghost const MEDDLER: Oracle := Oracle(
    (e: Expr, st: State) => Ok(NoneV, st),
    (acc: map<Value, Value>, k: Option<Value>, v: Value, st: State) => Some((acc[StrV("status") := NoneV], st)),
    (e: Expr, vs: seq<Value>, h: Heap) => Some((NoneV, map[])),
    (op: CompareOperator, a: Value, b: Value, h: Heap) => Some(NoneV),
    (v: Value, h: Heap) => false,
    (h: Heap) => Fresh(h, 0),
    (items: map<Value, Value>) => Keys(items),
    (t: Expr, v: Value, st: State) => Some(st.(heap := Emptied(st.heap))),
    (code: int, st: State) => Some(st))

  // ----- the exact condition on the targets -----

  /** Python's grammar: `and`/`or` have operands and a comparison pairs operators with operands. */
  predicate WellFormed(nodes: seq<Expr>) {
    forall x | x in nodes ::
      && (x.BoolOp? ==> x.operands != [])
      && (x.Compare? ==> x.comparators != [] && |x.ops| == |x.comparators|)
  }

  predicate NamesBound(nodes: seq<Expr>, st: State) {
    forall x | x in nodes && x.Name? :: x.id in st.env
  }

  /** `v` has a rendering once the object at address 0 is emptied. */
  ghost predicate RenderableEmptied(h: Heap, v: Value) {
    exists j :: Renders(Emptied(h), v, j)
  }

  lemma {:induction false} RendersGrows(h0: Heap, h1: Heap, v: Value, j: Json)
    requires Renders(h0, v, j) && Extends(h0, h1)
    ensures Renders(h1, v, j)
    decreases j
  {
    match j
    case JAtom(_) =>
    case JDict(members) =>
      forall k | k in members ensures Renders(h1, h1[v.addr].items[k], members[k]) {
        RendersGrows(h0, h1, h0[v.addr].items[k], members[k]);
      }
    case JList(elems) =>
      forall i | 0 <= i < |elems| ensures Renders(h1, h1[v.addr].elems[i], elems[i]) {
        RendersGrows(h0, h1, h0[v.addr].elems[i], elems[i]);
      }
  }

  lemma RenderableGrows(h0: Heap, h1: Heap, v: Value)
    requires RenderableEmptied(h0, v) && Extends(h0, h1)
    ensures RenderableEmptied(h1, v)
  {
    var j :| Renders(Emptied(h0), v, j);
    RendersGrows(Emptied(h0), Emptied(h1), v, j);
  }

  ghost predicate AllRenderable(h: Heap, items: map<Value, Value>) {
    forall k | k in items :: RenderableEmptied(h, items[k])
  }

  lemma AllRenderableGrows(h0: Heap, h1: Heap, items: map<Value, Value>)
    requires AllRenderable(h0, items) && Extends(h0, h1)
    ensures AllRenderable(h1, items)
  {
    forall k | k in items ensures RenderableEmptied(h1, items[k]) { RenderableGrows(h0, h1, items[k]); }
  }

  lemma DictRenderable(h: Heap, a: nat)
    requires a in h && a != 0 && h[a].DictObj? && AllRenderable(h, h[a].items)
    ensures RenderableEmptied(h, Ref(a))
  {
    var items := h[a].items;
    var members := map k | k in items :: Rendering(h, items[k]);
    assert Renders(Emptied(h), Ref(a), JDict(members));
  }

  ghost function Rendering(h: Heap, v: Value): (j: Json)
    requires RenderableEmptied(h, v)
    ensures Renders(Emptied(h), v, j)
  {
    var j :| Renders(Emptied(h), v, j); j
  }

  /** Nothing raises or changes the state; calls and reads yield None, a computed key is "status". */
  ghost predicate IsEasy(o: Oracle) {
    && (forall e, st :: o.call(e, st) == Ok(NoneV, st))
    && (forall acc, k, v, st :: o.entry(acc, k, v, st) == Some((acc[StrV("status") := NoneV], st)))
    && (forall e, vs, h :: o.read(e, vs, h) == Some((NoneV, map[])))
    && (forall op, a, b, h :: o.compare(op, a, b, h) == Some(NoneV))
    && (forall h :: o.alloc(h) !in h)
  }

  /** Everything in the state has a rendering once the object at address 0 is emptied. */
  ghost predicate IsTame(st: State) {
    && 0 in st.heap && (forall a | a in st.heap :: st.heap[a].DictObj? && AllRenderable(st.heap, st.heap[a].items))
    && forall x | x in st.env :: RenderableEmptied(st.heap, st.env[x])
  }

  lemma TameIsClosed(st: State)
    requires IsTame(st)
    ensures Closed(st)
  {
    forall x | x in st.env ensures InHeap(st.env[x], st.heap) { RenderableIsInHeap(st.heap, st.env[x]); }
    forall a | a in st.heap ensures ObjectClosed(st.heap[a], st.heap) {
      forall k | k in st.heap[a].items ensures InHeap(st.heap[a].items[k], st.heap) {
        RenderableIsInHeap(st.heap, st.heap[a].items[k]);
      }
    }
  }

  lemma RenderableIsInHeap(h: Heap, v: Value)
    requires 0 in h && RenderableEmptied(h, v)
    ensures InHeap(v, h)
  {
    var j :| Renders(Emptied(h), v, j);
  }

  /** The outcome of an expression that only allocates and yields something with a rendering. */
  ghost predicate Succeeds(r: Outcome, st: State) {
    r.Ok? && OnlyAllocates(st, r.st) && RenderableEmptied(r.st.heap, r.value) && IsTame(r.st)
  }

  ghost predicate EntriesAreKept(r: Option<(map<Value, Value>, State)>, st: State) {
    r.Some? && OnlyAllocates(st, r.value.1) && AllRenderable(r.value.1.heap, r.value.0) && IsTame(r.value.1)
  }

  lemma NoneRenderable(h: Heap)
    ensures RenderableEmptied(h, NoneV) && forall b :: RenderableEmptied(h, BoolV(b))
  {
    AtomRenderable(h, NoneV);
    forall b ensures RenderableEmptied(h, BoolV(b)) { AtomRenderable(h, BoolV(b)); }
  }

  lemma AtomRenderable(h: Heap, v: Value)
    requires !v.Ref?
    ensures RenderableEmptied(h, v)
  {
    assert Renders(Emptied(h), v, JAtom(v));
  }

  lemma MeddlerIsEasy()
    ensures IsEasy(MEDDLER)
  {}

  lemma DictSucceeds(entries: seq<Entry>, st: State, o: Oracle)
    requires IsEasy(o) && EntriesAreKept(EvalEntries(entries, map[], st, o), st)
    ensures Succeeds(Eval(Dict(entries), st, o), st)
  {
    var (items, st1) := EvalEntries(entries, map[], st, o).value;
    TameAllocates(st1, o.alloc(st1.heap), items);
  }

  lemma TameAllocates(st: State, a: nat, items: map<Value, Value>)
    requires IsTame(st) && a !in st.heap && AllRenderable(st.heap, items)
    ensures
      var st' := st.(heap := st.heap[a := DictObj(items)]);
      IsTame(st') && Extends(st.heap, st'.heap) && RenderableEmptied(st'.heap, Ref(a))
  {
    var h := st.heap[a := DictObj(items)];
    AllRenderableGrows(st.heap, h, items);
    DictRenderable(h, a);
    forall b | b in st.heap ensures AllRenderable(h, st.heap[b].items) { AllRenderableGrows(st.heap, h, st.heap[b].items); }
    forall x | x in st.env ensures RenderableEmptied(h, st.env[x]) { RenderableGrows(st.heap, h, st.env[x]); }
  }

  /** Reading adds nothing to the heap. */
  lemma ReadSucceeds(e: Expr, operands: seq<Value>, st: State, o: Oracle)
    requires IsEasy(o) && IsTame(st)
    ensures ReadOnly(e, operands, st, o) == Ok(NoneV, st) && Succeeds(Ok(NoneV, st), st)
  {
    assert map[] + st.heap == st.heap;
    NoneRenderable(st.heap);
  }

  /** An expression evaluates without raising, to something with a rendering, when its names
      are bound. */
  lemma {:induction false} EvalSucceeds(e: Expr, st: State, o: Oracle)
    requires IsEasy(o) && WellFormed(Walk(e)) && NamesBound(Walk(e), st) && IsTame(st)
    ensures Succeeds(Eval(e, st, o), st)
    decreases e, 2
  {
    assert e in Walk(e);
    match e
    case Name(_) =>
    case Const(c) => AtomRenderable(st.heap, ConstantValue(c));
    case Dict(entries) =>
      EntriesSucceed(entries, map[], st, o);
      DictSucceeds(entries, st, o);
    case BoolOp(op, operands) => BoolSucceeds(op, operands, st, o);
    case Call(_, _, _) => NoneRenderable(st.heap);
    case Effect(_, _) => NoneRenderable(st.heap);
    case _ => OperatorSucceeds(e, st, o);
  }

  lemma {:induction false} OperatorSucceeds(e: Expr, st: State, o: Oracle)
    requires e.Compare? || e.IfExp? || e.Subscript? || e.Attribute? || e.BinOp? || e.Display?
    requires IsEasy(o) && WellFormed(Walk(e)) && NamesBound(Walk(e), st) && IsTame(st)
    ensures Succeeds(Eval(e, st, o), st)
    decreases e, 1
  {
    assert e in Walk(e);
    match e
    case Compare(first, ops, comparators) =>
      EvalSucceeds(first, st, o);
      ChainSucceeds(Eval(first, st, o).value, ops, comparators, Eval(first, st, o).st, o);
    case IfExp(test, body, orelse) =>
      EvalSucceeds(test, st, o);
      EvalSucceeds(body, Eval(test, st, o).st, o);
      EvalSucceeds(orelse, Eval(test, st, o).st, o);
    case Subscript(container, index) => PairSucceeds(e, container, index, st, o);
    case Attribute(owner, _) =>
      EvalSucceeds(owner, st, o);
      ReadSucceeds(e, [Eval(owner, st, o).value], Eval(owner, st, o).st, o);
    case BinOp(left, _, right) => PairSucceeds(e, left, right, st, o);
    case Display(_, items) =>
      ItemsSucceed(items, st, o);
      var (vs, st1) := EvalItems(items, st, o).value;
      ReadSucceeds(e, vs, st1, o);
  }

  lemma {:induction false} PairSucceeds(e: Expr, a: Expr, b: Expr, st: State, o: Oracle)
    requires a < e && b < e && WellFormed(Walk(a)) && NamesBound(Walk(a), st)
    requires IsEasy(o) && WellFormed(Walk(b)) && NamesBound(Walk(b), st) && IsTame(st)
    ensures Succeeds(EvalPair(e, a, b, st, o), st)
    decreases e, 0
  {
    EvalSucceeds(a, st, o);
    var Ok(v, st1) := Eval(a, st, o);
    EvalSucceeds(b, st1, o);
    var Ok(w, st2) := Eval(b, st1, o);
    ReadSucceeds(e, [v, w], st2, o);
  }

  lemma {:induction false} ItemsSucceed(es: seq<Expr>, st: State, o: Oracle)
    requires IsEasy(o) && WellFormed(WalkAll(es)) && NamesBound(WalkAll(es), st) && IsTame(st)
    ensures EvalItems(es, st, o).Some?
    ensures OnlyAllocates(st, EvalItems(es, st, o).value.1) && IsTame(EvalItems(es, st, o).value.1)
    decreases es, 0
  {
    if es != [] {
      EvalSucceeds(es[0], st, o);
      ItemsSucceed(es[1..], Eval(es[0], st, o).st, o);
    }
  }

  lemma {:induction false} BoolSucceeds(op: BoolOperator, es: seq<Expr>, st: State, o: Oracle)
    requires IsEasy(o) && es != [] && WellFormed(WalkAll(es)) && NamesBound(WalkAll(es), st) && IsTame(st)
    ensures Succeeds(EvalBool(op, es, st, o), st)
    decreases es, 0
  {
    EvalSucceeds(es[0], st, o);
    if |es| > 1 {
      BoolSucceeds(op, es[1..], Eval(es[0], st, o).st, o);
    }
  }

  lemma {:induction false} ChainSucceeds(v: Value, ops: seq<CompareOperator>, es: seq<Expr>, st: State, o: Oracle)
    requires es != [] && |ops| == |es|
    requires IsEasy(o) && WellFormed(WalkAll(es)) && NamesBound(WalkAll(es), st) && IsTame(st)
    ensures Succeeds(EvalChain(v, ops, es, st, o), st)
    decreases es, 0
  {
    EvalSucceeds(es[0], st, o);
    var Ok(w, st1) := Eval(es[0], st, o);
    ComparisonSucceeds(ops[0], v, w, st1, o);
    if |es| > 1 {
      ChainSucceeds(w, ops[1..], es[1..], st1, o);
    }
  }

  lemma ComparisonSucceeds(op: CompareOperator, v: Value, w: Value, st: State, o: Oracle)
    requires IsEasy(o)
    ensures CompareOne(op, v, w, st.heap, o).Some?
    ensures RenderableEmptied(st.heap, CompareOne(op, v, w, st.heap, o).value)
  {
    NoneRenderable(st.heap);
  }

  lemma {:induction false} EntriesSucceed(entries: seq<Entry>, acc: map<Value, Value>, st: State, o: Oracle)
    requires IsEasy(o) && WellFormed(WalkEntries(entries)) && NamesBound(WalkEntries(entries), st)
    requires IsTame(st) && AllRenderable(st.heap, acc)
    ensures EntriesAreKept(EvalEntries(entries, acc, st, o), st)
    decreases entries, 0
  {
    if entries != [] {
      EntrySucceeds(entries[0], acc, st, o);
      var (acc1, st1) := EvalEntry(entries[0], acc, st, o).value;
      EntriesSucceed(entries[1..], acc1, st1, o);
    }
  }

  lemma {:induction false} EntrySucceeds(entry: Entry, acc: map<Value, Value>, st: State, o: Oracle)
    requires IsEasy(o) && WellFormed(WalkEntry(entry)) && NamesBound(WalkEntry(entry), st)
    requires IsTame(st) && AllRenderable(st.heap, acc)
    ensures EntriesAreKept(EvalEntry(entry, acc, st, o), st)
    decreases entry, 0
  {
    var st0 := st;
    if !IsConstantKey(entry.key) && entry.key.Some? {
      EvalSucceeds(entry.key.value, st, o);
      st0 := Eval(entry.key.value, st, o).st;
    }
    EvalSucceeds(entry.value, st0, o);
    var st1 := Eval(entry.value, st0, o).st;
    AllRenderableGrows(st.heap, st1.heap, acc);
    NoneRenderable(st1.heap);
  }

  /** A name, a tuple or list of names, or an attribute or subscript. */
  predicate IsPlainTarget(t: Expr) {
    t.Name? || IsStoring(t) || (IsUnpacking(t) && OnlyNames(t.items))
  }

  predicate IsStoring(t: Expr) { t.Attribute? || t.Subscript? }

  predicate ArePlain(targets: seq<Expr>) { forall i | 0 <= i < |targets| :: IsPlainTarget(targets[i]) }
  predicate NoneStores(targets: seq<Expr>) { forall i | 0 <= i < |targets| :: !IsStoring(targets[i]) }

  /** Every tuple or list of targets takes `n` elements. */
  predicate Fit(targets: seq<Expr>, n: nat) {
    forall i | 0 <= i < |targets| && IsUnpacking(targets[i]) :: |targets[i].items| == n
  }

  /** The keys of a dict display whose keys are string literals. */
  function KeysOf(entries: seq<Entry>): set<Value> {
    if entries == [] then {}
    else (if IsStringKey(entries[0].key) then {StrV(entries[0].key.value.constant.s)} else {}) + KeysOf(entries[1..])
  }

  lemma {:induction false} DisplayHasKeys(entries: seq<Entry>, acc: map<Value, Value>, st: State, o: Oracle)
    requires forall i | 0 <= i < |entries| :: IsStringKey(entries[i].key)
    ensures EvalEntries(entries, acc, st, o).Some? ==>
      EvalEntries(entries, acc, st, o).value.0.Keys == acc.Keys + KeysOf(entries)
    decreases |entries|
  {
    if entries != [] && EvalEntry(entries[0], acc, st, o).Some? {
      var (acc1, st1) := EvalEntry(entries[0], acc, st, o).value;
      DisplayHasKeys(entries[1..], acc1, st1, o);
    }
  }

  lemma {:induction false} CaptureKeysAreStrings(entries: seq<Entry>, dicts: DictTable, status: Option<Expr>)
    requires CaptureEntries(entries, dicts, status).Some?
    ensures forall i | 0 <= i < |entries| :: IsStringKey(entries[i].key)
    decreases |entries|
  {
    if entries != [] {
      var next := if IsKey(entries[0].key, "qemu") then QemuStatusFrom(entries[0].value, dicts) else status;
      CaptureKeysAreStrings(entries[1..], dicts, next);
    }
  }

  /** A dict with `n` string keys, away from address 0. */
  predicate IsCaptured(v: Value, heap: Heap, n: nat) {
    v.Ref? && v.addr != 0 && YieldsStrings(v, heap) && |heap[v.addr].items| == n
  }

  /** What an assignment leaves in `proof`: the value itself, one of its keys, or what was there. */
  predicate LeavesProof(st: State, st': State, v: Value, ends: bool, mentioned: bool) {
    if ends then "proof" in st'.env && st'.env["proof"] == v
    else if mentioned then "proof" in st'.env && st'.env["proof"].StrV?
    else ("proof" in st'.env <==> "proof" in st.env) && ("proof" in st.env ==> st'.env["proof"] == st.env["proof"])
  }

  lemma {:induction false} NamesTakeStrings(ts: seq<Expr>, vs: seq<Value>, st: State, o: Oracle)
    requires OnlyNames(ts) && |ts| == |vs| && forall i | 0 <= i < |vs| :: vs[i].StrV?
    ensures StoreEach(ts, vs, st, o).Some? && StoreEach(ts, vs, st, o).value.heap == st.heap
    ensures LeavesProof(st, StoreEach(ts, vs, st, o).value, NoneV, false, AnyMentions(ts, "proof"))
    decreases |ts|
  {
    if ts != [] {
      var st1 := st.(env := st.env[ts[0].id := vs[0]]);
      assert StoreOne(ts[0], vs[0], st, o) == Some(st1);
      NamesTakeStrings(ts[1..], vs[1..], st1, o);
      assert StoreEach(ts, vs, st, o) == StoreEach(ts[1..], vs[1..], st1, o);
      assert Mentions(ts[0], "proof") == (ts[0].id == "proof");
      assert AnyMentions(ts, "proof") == (Mentions(ts[0], "proof") || AnyMentions(ts[1..], "proof"));
    }
  }

  lemma StoreOneMeddled(t: Expr, v: Value, st: State, n: nat)
    requires IsPlainTarget(t) && IsCaptured(v, st.heap, n) && (IsUnpacking(t) ==> |t.items| == n)
    ensures StoreOne(t, v, st, MEDDLER).Some?
    ensures StoreOne(t, v, st, MEDDLER).value.heap == if IsStoring(t) then Emptied(st.heap) else st.heap
    ensures LeavesProof(st, StoreOne(t, v, st, MEDDLER).value, v, IsName(t, "proof"), Mentions(t, "proof"))
  {
    if IsUnpacking(t) {
      NamesTakeStrings(t.items, Keys(st.heap[v.addr].items), st, MEDDLER);
    }
  }

  /** With this oracle every fitting assignment succeeds. */
  lemma {:induction false} StoreMeddled(targets: seq<Expr>, v: Value, st: State, n: nat)
    requires ArePlain(targets) && IsCaptured(v, st.heap, n) && Fit(targets, n)
    ensures Store(targets, v, st, MEDDLER).Some?
    ensures Store(targets, v, st, MEDDLER).value.heap == if NoneStores(targets) then st.heap else Emptied(st.heap)
    ensures LeavesProof(
              st, Store(targets, v, st, MEDDLER).value, v, EndsOnName(targets, "proof"), AnyMentions(targets, "proof"))
    decreases |targets|
  {
    if targets != [] {
      StoreOneMeddled(targets[0], v, st, n);
      StoreMeddled(targets[1..], v, StoreOne(targets[0], v, st, MEDDLER).value, n);
      assert targets == [targets[0]] + targets[1..];
    }
  }

  /** A tuple or list of another length makes the assignment raise, whatever the oracle. */
  lemma {:induction false} UnfitRaises(targets: seq<Expr>, v: Value, st: State, n: nat, o: Oracle)
    requires ArePlain(targets) && NoneStores(targets) && !Fit(targets, n)
    requires v.Ref? && YieldsStrings(v, st.heap) && |st.heap[v.addr].items| == n
    ensures Store(targets, v, st, o).None?
    decreases |targets|
  {
    assert targets == [targets[0]] + targets[1..];
    if Fit([targets[0]], n) && StoreOne(targets[0], v, st, o).Some? {
      PlainBinds(targets[0]);
      StoreOneBinds(targets[0], v, st, "proof", o);
      UnfitRaises(targets[1..], v, StoreOne(targets[0], v, st, o).value, n, o);
    }
  }

  lemma {:induction false} NamesAreBinding(ts: seq<Expr>)
    requires OnlyNames(ts)
    ensures AreBinding(ts)
    decreases |ts|
  {
    if ts != [] { NamesAreBinding(ts[1..]); }
  }

  lemma PlainBinds(t: Expr)
    requires IsPlainTarget(t) && !IsStoring(t)
    ensures IsBinding(t)
  {
    if t.Display? { NamesAreBinding(t.items); }
  }

  lemma {:induction false} PlainAreBinding(targets: seq<Expr>)
    requires ArePlain(targets) && NoneStores(targets)
    ensures AreBinding(targets)
    decreases |targets|
  {
    if targets != [] {
      PlainBinds(targets[0]);
      PlainAreBinding(targets[1..]);
    }
  }

  /** Every run of the statement leaves a `proof` whose JSON shows what `qemu` held. */
  ghost predicate SafeCapture(s: Stmt) {
    forall before: State, o: Oracle, j: Json ::
      Closed(before) && Exec(s, before, o).Some? && Writes(Exec(s, before, o).value, j) ==> ShowsQemuOf(before, j)
  }

  function NamesIn(nodes: seq<Expr>): set<string> {
    set n | n in nodes && n.Name? :: n.id
  }

  /** Every name of `e`, and `qemu`, bound to one object with a status. */
  function Bound(e: Expr): State {
    var names := NamesIn(Walk(e)) + {"qemu"};
    State(map x | x in names :: Ref(0), map[0 := DictObj(map[StrV("status") := NoneV])], 0)
  }

  lemma BoundIsTame(e: Expr)
    ensures IsTame(Bound(e))
  {
    var h := Bound(e).heap;
    assert Renders(Emptied(h), Ref(0), JDict(map[]));
    AtomRenderable(h, NoneV);
  }

  lemma EmptiedLooksDifferent(h: Heap, e: Expr, q: Json)
    requires Renders(Emptied(h), Ref(0), q)
    ensures !Renders(Bound(e).heap, Ref(0), q)
  {
    assert StrV("status") !in q.members;
  }

  /** The value of an accepted capture, evaluated where all its names are bound to one object. */
  lemma CaptureEvaluatesBound(s: Stmt, dicts: DictTable) returns (proof: Value, st: State)
    requires IsCaptureStatement(s, dicts) && WellFormed(Walk(s.rhs))
    ensures Eval(s.rhs, Bound(s.rhs), MEDDLER) == Ok(proof, st) && RenderableEmptied(st.heap, proof)
    ensures IsCaptured(proof, st.heap, |KeysOf(s.rhs.entries)|)
    ensures StrV("qemu") in st.heap[proof.addr].items && st.heap[proof.addr].items[StrV("qemu")] == Ref(0)
  {
    MeddlerIsEasy();
    BoundIsTame(s.rhs);
    EvalSucceeds(s.rhs, Bound(s.rhs), MEDDLER);
    CaptureEntriesBindQemu(s.rhs.entries, dicts, None, map[], Bound(s.rhs), MEDDLER);
    proof, st := Eval(s.rhs, Bound(s.rhs), MEDDLER).value, Eval(s.rhs, Bound(s.rhs), MEDDLER).st;
    CaptureIsCaptured(s, dicts, Bound(s.rhs), MEDDLER);
  }

  lemma CaptureIsCaptured(s: Stmt, dicts: DictTable, before: State, o: Oracle)
    requires IsCaptureStatement(s, dicts) && Eval(s.rhs, before, o).Ok?
    ensures
      var Ok(proof, st) := Eval(s.rhs, before, o);
      proof.Ref? && YieldsStrings(proof, st.heap) && |st.heap[proof.addr].items| == |KeysOf(s.rhs.entries)|
  {
    CaptureKeysAreStrings(s.rhs.entries, dicts, None);
    CapturedKeysAreStrings(s.rhs.entries, dicts, None, map[], before, o);
    DisplayHasKeys(s.rhs.entries, map[], before, o);
    var (items, st) := EvalEntries(s.rhs.entries, map[], before, o).value;
    assert items.Keys == KeysOf(s.rhs.entries);
    assert |items| == |items.Keys|;
  }

  lemma EmptiedIsShown(h: Heap, proof: Value, j: Json)
    requires proof.Ref? && proof.addr != 0 && proof.addr in h && h[proof.addr].DictObj?
    requires StrV("qemu") in h[proof.addr].items && h[proof.addr].items[StrV("qemu")] == Ref(0)
    requires Renders(Emptied(h), proof, j)
    ensures j.JDict? && StrV("qemu") in j.members && Renders(Emptied(h), Ref(0), j.members[StrV("qemu")])
  {}

  /** The targets do not keep `proof`: one stores, or the last to bind it takes it apart. */
  predicate LosesProof(targets: seq<Expr>) { !NoneStores(targets) || !EndsOnName(targets, "proof") }

  lemma {:induction false} NameIsMentioned(targets: seq<Expr>, x: string)
    requires exists t | t in targets :: IsName(t, x)
    ensures AnyMentions(targets, x)
    decreases |targets|
  {
    assert targets == [targets[0]] + targets[1..];
    if !IsName(targets[0], x) { NameIsMentioned(targets[1..], x); }
  }

  /** A fitting capture statement that does not keep `proof` has a run that shows something else. */
  lemma LosingTargetsAreUnsafe(s: Stmt, dicts: DictTable) returns (before: State, j: Json)
    requires IsCaptureStatement(s, dicts) && WellFormed(Walk(s.rhs)) && ArePlain(s.targets)
    requires Fit(s.targets, |KeysOf(s.rhs.entries)|) && LosesProof(s.targets)
    ensures Closed(before) && Exec(s, before, MEDDLER).Some? && Writes(Exec(s, before, MEDDLER).value, j)
    ensures !ShowsQemuOf(before, j)
  {
    before := Bound(s.rhs);
    var proof, st := CaptureEvaluatesBound(s, dicts);
    StoreMeddled(s.targets, proof, st, |KeysOf(s.rhs.entries)|);
    NameIsMentioned(s.targets, "proof");
    if EndsOnName(s.targets, "proof") {
      j := Rendering(st.heap, proof);
      EmptiedIsShown(st.heap, proof, j);
      EmptiedLooksDifferent(st.heap, s.rhs, j.members[StrV("qemu")]);
    } else {
      j := JAtom(Store(s.targets, proof, st, MEDDLER).value.env["proof"]);
    }
  }

  /** The exact condition for targets that are names, tuples or lists of names, attributes or
      subscripts, no attribute or subscript being mixed with a tuple or list that does not
      fit: an accepted capture value is captured faithfully in every run, whatever the
      oracle, iff the assignment cannot succeed at all, or none of the targets is an
      attribute or subscript and the last to bind `proof` is the plain name. */
  lemma CaptureIsSafeIff(s: Stmt, dicts: DictTable)
    requires IsCaptureStatement(s, dicts) && WellFormed(Walk(s.rhs)) && ArePlain(s.targets)
    requires Fit(s.targets, |KeysOf(s.rhs.entries)|) || NoneStores(s.targets)
    ensures SafeCapture(s) <==> !Fit(s.targets, |KeysOf(s.rhs.entries)|) || !LosesProof(s.targets)
  {
    if !Fit(s.targets, |KeysOf(s.rhs.entries)|) {
      forall before: State, o: Oracle ensures Exec(s, before, o).None? { UnfitCaptureRaises(s, dicts, before, o); }
    } else if LosesProof(s.targets) {
      var before, j := LosingTargetsAreUnsafe(s, dicts);
    } else {
      PlainAreBinding(s.targets);
      forall before: State, o: Oracle, j: Json
        | Closed(before) && Exec(s, before, o).Some? && Writes(Exec(s, before, o).value, j)
        ensures ShowsQemuOf(before, j)
      {
        CaptureShowsQemu(s, dicts, before, o, j);
      }
    }
  }

  lemma UnfitCaptureRaises(s: Stmt, dicts: DictTable, before: State, o: Oracle)
    requires IsCaptureStatement(s, dicts) && ArePlain(s.targets) && NoneStores(s.targets)
    requires !Fit(s.targets, |KeysOf(s.rhs.entries)|)
    ensures Exec(s, before, o).None?
  {
    if Eval(s.rhs, before, o).Ok? {
      CaptureIsCaptured(s, dicts, before, o);
      var Ok(proof, st) := Eval(s.rhs, before, o);
      UnfitRaises(s.targets, proof, st, |KeysOf(s.rhs.entries)|, o);
    }
  }

  // ----- the exact condition on the literal -----

  /** If evaluating the literal succeeds, its object keeps the value of entry `i`, as
      evaluated there. */
  ghost predicate KeepsEntry(lit: seq<Entry>, i: nat, st: State, o: Oracle)
    requires i < |lit|
  {
    EvalEntries(lit, map[], st, o).Some? ==>
      && StateAtEntry(lit, i, map[], st, o).Some?
      && var mid := StateAtEntry(lit, i, map[], st, o).value;
         var items := EvalEntries(lit, map[], st, o).value.0;
         Eval(lit[i].value, mid, o).Ok? && StrV("status") in items
         && items[StrV("status")] == Eval(lit[i].value, mid, o).value
  }

  lemma {:induction false} EntriesSplit(lit: seq<Entry>, d: nat, acc: map<Value, Value>, st: State, o: Oracle)
    requires d <= |lit|
    ensures EvalEntries(lit, acc, st, o) ==
      match EvalEntries(lit[..d], acc, st, o)
      case None => None
      case Some((acc1, st1)) => EvalEntries(lit[d..], acc1, st1, o)
    decreases d
  {
    if d == 0 {
      assert lit[d..] == lit;
    } else {
      assert lit[1..][..d - 1] == lit[..d][1..] && lit[1..][d - 1..] == lit[d..] && lit[..d][0] == lit[0];
      if EvalEntry(lit[0], acc, st, o).Some? {
        var (acc1, st1) := EvalEntry(lit[0], acc, st, o).value;
        EntriesSplit(lit[1..], d - 1, acc1, st1, o);
      }
    }
  }

  /** Entry `d` is the last that can set "status". */
  predicate IsLastSetter(lit: seq<Entry>, d: nat) {
    d < |lit| && (IsKey(lit[d].key, "status") || !IsConstantKey(lit[d].key)) && NothingReplaces(lit, d)
  }

  lemma {:induction false} LastSetter(lit: seq<Entry>, i: nat) returns (d: nat)
    requires i < |lit| && !NothingReplaces(lit, i)
    ensures i < d && IsLastSetter(lit, d)
    decreases |lit| - i
  {
    d :| i < d < |lit| && !(IsConstantKey(lit[d].key) && !IsKey(lit[d].key, "status"));
    if !NothingReplaces(lit, d) {
      d := LastSetter(lit, d);
    }
  }

  lemma EntrySets(entry: Entry, acc: map<Value, Value>, st: State)
    requires EvalEntry(entry, acc, st, MEDDLER).Some?
    ensures IsKey(entry.key, "status") && entry.value.Const? ==>
      StatusIs(EvalEntry(entry, acc, st, MEDDLER).value.0, ConstantValue(entry.value.constant))
    ensures !IsConstantKey(entry.key) ==> StatusIs(EvalEntry(entry, acc, st, MEDDLER).value.0, NoneV)
  {
    if IsKey(entry.key, "status") {
      assert KeyValue(entry.key.value.constant) == StrV("status");
    }
  }

  /** What the last setter sets stays: a constant, or None where the key is computed. */
  lemma SetterSets(lit: seq<Entry>, d: nat, st: State)
    requires IsLastSetter(lit, d) && EvalEntries(lit, map[], st, MEDDLER).Some?
    requires IsKey(lit[d].key, "status") ==> lit[d].value.Const?
    ensures StatusIs(
              EvalEntries(lit, map[], st, MEDDLER).value.0,
              if IsKey(lit[d].key, "status") then ConstantValue(lit[d].value.constant) else NoneV)
  {
    EntriesSplit(lit, d, map[], st, MEDDLER);
    var (acc, mid) := EvalEntries(lit[..d], map[], st, MEDDLER).value;
    assert lit[d..][0] == lit[d] && lit[d..][1..] == lit[d + 1..];
    var (acc1, mid1) := EvalEntry(lit[d], acc, mid, MEDDLER).value;
    EntrySets(lit[d], acc, mid);
    LaterEntriesKeep(lit[d + 1..], acc1, mid1, MEDDLER, "status");
  }

  predicate StatusIs(items: map<Value, Value>, v: Value) { StrV("status") in items && items[StrV("status")] == v }

  /** All names of the literal bound to None, `qemu_usable` to a bool. */
  function Deciding(lit: seq<Entry>, usable: bool): State {
    var names := NamesIn(WalkEntries(lit)) + {"qemu_usable"};
    State(map x | x in names :: if x == "qemu_usable" then BoolV(usable) else NoneV, map[0 := DictObj(map[])], 0)
  }

  lemma DecidingIsTame(lit: seq<Entry>, usable: bool)
    ensures IsTame(Deciding(lit, usable))
  {
    NoneRenderable(Deciding(lit, usable).heap);
  }

  lemma DecidingEvaluates(lit: seq<Entry>, part: seq<Entry>, usable: bool)
    requires WellFormed(WalkEntries(lit)) && forall x | x in WalkEntries(part) :: x in WalkEntries(lit)
    ensures EvalEntries(part, map[], Deciding(lit, usable), MEDDLER).Some?
    ensures EvalEntries(part, map[], Deciding(lit, usable), MEDDLER).value.1.env == Deciding(lit, usable).env
  {
    MeddlerIsEasy();
    DecidingIsTame(lit, usable);
    EntriesSucceed(part, map[], Deciding(lit, usable), MEDDLER);
  }

  lemma BranchIsChosen(yes: string, no: string, st: State, usable: bool)
    requires "qemu_usable" in st.env && st.env["qemu_usable"] == BoolV(usable)
    ensures Eval(IfExp(Name("qemu_usable"), Const(StrConst(yes)), Const(StrConst(no))), st, MEDDLER)
         == Ok(StrV(if usable then yes else no), st)
  {}

  lemma ChoosesBranch(lit: seq<Entry>, i: nat, usable: bool, yes: string, no: string)
    requires i < |lit| && lit[i].value == IfExp(Name("qemu_usable"), Const(StrConst(yes)), Const(StrConst(no)))
    requires WellFormed(WalkEntries(lit))
    ensures EvalEntries(lit, map[], Deciding(lit, usable), MEDDLER).Some?
    ensures
      match StateAtEntry(lit, i, map[], Deciding(lit, usable), MEDDLER)
      case None => false
      case Some(mid) => Eval(lit[i].value, mid, MEDDLER) == Ok(StrV(if usable then yes else no), mid)
  {
    DecidingEvaluates(lit, lit, usable);
    WalkedParts(lit, i);
    DecidingEvaluates(lit, lit[..i], usable);
    BranchIsChosen(yes, no, StateAtEntry(lit, i, map[], Deciding(lit, usable), MEDDLER).value, usable);
  }

  lemma {:induction false} WalkedParts(lit: seq<Entry>, i: nat)
    requires i <= |lit|
    ensures forall x | x in WalkEntries(lit[..i]) :: x in WalkEntries(lit)
    decreases i
  {
    if i > 0 {
      assert lit[..i][0] == lit[0] && lit[..i][1..] == lit[1..][..i - 1];
      WalkedParts(lit[1..], i - 1);
    }
  }

  /** The exact condition: a literal whose first "status" is a choice between two strings,
      and whose later ones are constants, keeps the entry judged in every run and for
      every oracle iff no later entry has the key "status" or a computed key. */
  lemma JudgedEntryIsKeptIffSettled(lit: seq<Entry>, i: nat, yes: string, no: string)
    requires IsFirstStatus(lit, i) && WellFormed(WalkEntries(lit)) && yes != no
    requires lit[i].value == IfExp(Name("qemu_usable"), Const(StrConst(yes)), Const(StrConst(no)))
    requires forall m | i < m < |lit| && IsKey(lit[m].key, "status") :: lit[m].value.Const?
    ensures (forall st, o :: KeepsEntry(lit, i, st, o)) <==> StatusSettled(lit, i)
  {
    if StatusSettled(lit, i) {
      forall st, o ensures KeepsEntry(lit, i, st, o) {
        if EvalEntries(lit, map[], st, o).Some? { LastStatusIsKept(lit, i, map[], st, o); }
      }
    } else {
      var d := LastSetter(lit, i);
      var usable := !IsKey(lit[d].key, "status") || lit[d].value.constant != StrConst(yes);
      ChoosesBranch(lit, i, usable, yes, no);
      SetterSets(lit, d, Deciding(lit, usable));
      assert !KeepsEntry(lit, i, Deciding(lit, usable), MEDDLER);
    }
  }
}
