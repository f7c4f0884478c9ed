/** A heap semantics for the Python subset (sections 6.2.7 and 7.2 of the Python
    Language Reference for the order of dict displays and assignments).

    Everything a caller cannot see is an oracle: what a call, a forbidden node, an
    unknown statement, a dict entry with a computed key or a store through anything but
    names does to the state is arbitrary.  Operators, subscript loads and attribute
    loads are read-only: they may allocate, never change an existing cell. */
module PythonEval {
  import opened Wrappers
  import opened PythonAst

  datatype Value = NoneV | BoolV(b: bool) | IntV(n: int) | StrV(s: string) | Ref(addr: nat)

  datatype Object = DictObj(items: map<Value, Value>) | ListObj(elems: seq<Value>) | OtherObj(tag: int)

  type Heap = map<nat, Object>

  /** `world` lets an oracle remember anything, so it may answer differently each time. */
  datatype State = State(env: map<string, Value>, heap: Heap, world: nat)

  datatype Outcome = Raised | Ok(value: Value, st: State)

  datatype Oracle = Oracle(
    call: (Expr, State) -> Outcome,
    entry: (map<Value, Value>, Option<Value>, Value, State) -> Option<(map<Value, Value>, State)>,
    read: (Expr, seq<Value>, Heap) -> Option<(Value, Heap)>,
    compare: (CompareOperator, Value, Value, Heap) -> Option<Value>,
    truth: (Value, Heap) -> bool,
    alloc: Heap -> nat,
    order: map<Value, Value> -> seq<Value>,
    store: (Expr, Value, State) -> Option<State>,
    stmt: (int, State) -> Option<State>)

  function ConstantValue(c: Constant): Value {
    match c
    case NoneConst => NoneV
    case BoolConst(b) => BoolV(b)
    case IntConst(n) => IntV(n)
    case StrConst(s) => StrV(s)
  }

  predicate Truthy(v: Value, heap: Heap, o: Oracle) {
    match v
    case NoneV => false
    case BoolV(b) => b
    case IntV(n) => n != 0
    case StrV(s) => s != ""
    case Ref(a) =>
      if a in heap && heap[a].DictObj? then heap[a].items != map[]
      else if a in heap && heap[a].ListObj? then heap[a].elems != []
      else o.truth(v, heap)
  }

  /** Python's equality on values other than objects: a bool is the int 0 or 1. */
  predicate AtomsEqual(a: Value, b: Value)
    requires !a.Ref? && !b.Ref?
  {
    AsInt(a) == AsInt(b)
  }

  function AsInt(a: Value): Value {
    if a.BoolV? then IntV(if a.b then 1 else 0) else a
  }

  function CompareOne(op: CompareOperator, a: Value, b: Value, heap: Heap, o: Oracle): Option<Value> {
    if op == NotEq && !a.Ref? && !b.Ref? then Some(BoolV(!AtomsEqual(a, b))) else o.compare(op, a, b, heap)
  }

  /** The result of a read-only operation: new cells are added, old ones win. */
  function ReadOnly(e: Expr, operands: seq<Value>, st: State, o: Oracle): Outcome {
    match o.read(e, operands, st.heap)
    case None => Raised
    case Some((v, cells)) => Ok(v, st.(heap := cells + st.heap))
  }

  /** Allocation: an address that is taken stands for running out of memory. */
  function Allocate(obj: Object, st: State, o: Oracle): Outcome {
    var a := o.alloc(st.heap);
    if a in st.heap then Raised else Ok(Ref(a), st.(heap := st.heap[a := obj]))
  }

  function Eval(e: Expr, st: State, o: Oracle): Outcome
    decreases e, 1
  {
    match e
    case Name(id) => if id in st.env then Ok(st.env[id], st) else Raised
    case Const(c) => Ok(ConstantValue(c), st)
    case Dict(entries) =>
      (match EvalEntries(entries, map[], st, o)
       case None => Raised
       case Some((items, st1)) => Allocate(DictObj(items), st1, o))
    case BoolOp(op, operands) => EvalBool(op, operands, st, o)
    case Compare(first, ops, comparators) =>
      (match Eval(first, st, o)
       case Raised => Raised
       case Ok(v, st1) => EvalChain(v, ops, comparators, st1, o))
    case IfExp(test, body, orelse) =>
      (match Eval(test, st, o)
       case Raised => Raised
       case Ok(v, st1) => if Truthy(v, st1.heap, o) then Eval(body, st1, o) else Eval(orelse, st1, o))
    case Subscript(container, index) => EvalPair(e, container, index, st, o)
    case Attribute(owner, _) =>
      (match Eval(owner, st, o)
       case Raised => Raised
       case Ok(v, st1) => ReadOnly(e, [v], st1, o))
    case BinOp(left, _, right) => EvalPair(e, left, right, st, o)
    case Display(_, items) =>
      (match EvalItems(items, st, o)
       case None => Raised
       case Some((vs, st1)) => ReadOnly(e, vs, st1, o))
    case Call(_, _, _) => o.call(e, st)
    case Effect(_, _) => o.call(e, st)
  }

  function EvalPair(e: Expr, a: Expr, b: Expr, st: State, o: Oracle): Outcome
    requires a < e && b < e
    decreases e, 0
  {
    match Eval(a, st, o)
    case Raised => Raised
    case Ok(v, st1) =>
      match Eval(b, st1, o)
      case Raised => Raised
      case Ok(w, st2) => ReadOnly(e, [v, w], st2, o)
  }

  function EvalItems(es: seq<Expr>, st: State, o: Oracle): Option<(seq<Value>, State)>
    decreases es, 0
  {
    if es == [] then Some(([], st)) else
      match Eval(es[0], st, o)
      case Raised => None
      case Ok(v, st1) =>
        match EvalItems(es[1..], st1, o)
        case None => None
        case Some((vs, st2)) => Some(([v] + vs, st2))
  }

  /** `and` and `or`: the first operand that settles the answer is the result. */
  function EvalBool(op: BoolOperator, es: seq<Expr>, st: State, o: Oracle): Outcome
    decreases es, 0
  {
    if es == [] then Raised else
      match Eval(es[0], st, o)
      case Raised => Raised
      case Ok(v, st1) =>
        if |es| == 1 || Truthy(v, st1.heap, o) == op.Or? then Ok(v, st1) else EvalBool(op, es[1..], st1, o)
  }

  /** The rest of a comparison chain whose left operand is `v`. */
  function EvalChain(v: Value, ops: seq<CompareOperator>, es: seq<Expr>, st: State, o: Oracle): Outcome
    decreases es, 0
  {
    if es == [] || ops == [] then Raised else
      match Eval(es[0], st, o)
      case Raised => Raised
      case Ok(w, st1) =>
        match CompareOne(ops[0], v, w, st1.heap, o)
        case None => Raised
        case Some(r) =>
          if |es| == 1 || !Truthy(r, st1.heap, o) then Ok(r, st1) else EvalChain(w, ops[1..], es[1..], st1, o)
  }

  /** The entries of a dict display, left to right. */
  function EvalEntries(entries: seq<Entry>, acc: map<Value, Value>, st: State, o: Oracle)
    : Option<(map<Value, Value>, State)>
    decreases entries, 0
  {
    if entries == [] then Some((acc, st)) else
      match EvalEntry(entries[0], acc, st, o)
      case None => None
      case Some((acc1, st1)) => EvalEntries(entries[1..], acc1, st1, o)
  }

  /** Dict keys compare as values do: True is the key 1. */
  function KeyValue(c: Constant): Value { AsInt(ConstantValue(c)) }

  /** One entry, the key before its value.  A constant as key is plain insertion, the
      last duplicate winning; any other key, and `**` unpacking, runs code of the
      objects involved. */
  function EvalEntry(entry: Entry, acc: map<Value, Value>, st: State, o: Oracle)
    : Option<(map<Value, Value>, State)>
    decreases entry, 0
  {
    if IsConstantKey(entry.key) then
      match Eval(entry.value, st, o)
      case Raised => None
      case Ok(v, st1) => Some((acc[KeyValue(entry.key.value.constant) := v], st1))
    else
      var key := match entry.key case None => Ok(NoneV, st) case Some(e) => Eval(e, st, o);
      match key
      case Raised => None
      case Ok(k, st1) =>
        match Eval(entry.value, st1, o)
        case Raised => None
        case Ok(v, st2) => o.entry(acc, if entry.key.None? then None else Some(k), v, st2)
  }

  /** A tuple or list of targets, none of them starred. */
  predicate IsUnpacking(t: Expr) {
    t.Display? && (t.kind == "tuple" || t.kind == "list") && forall i | 0 <= i < |t.items| :: !t.items[i].Effect?
  }

  /** Whether iterating `v` runs no code of its own. */
  predicate IsPlainIterable(v: Value, heap: Heap) {
    v.Ref? ==> v.addr in heap && !heap[v.addr].OtherObj?
  }

  /** The `n` elements of `v`, if it has that many: a dict yields its keys, in an order the
      oracle knows. */
  function Elements(v: Value, heap: Heap, n: nat, o: Oracle): (r: Option<seq<Value>>)
    requires IsPlainIterable(v, heap)
    ensures r.Some? ==> |r.value| == n
  {
    match v
    case StrV(s) => if |s| == n then Some(seq(n, i requires 0 <= i < n => StrV([s[i]]))) else None
    case Ref(a) =>
      (match heap[a]
       case ListObj(elems) => if |elems| == n then Some(elems) else None
       case DictObj(items) =>
         var keys := o.order(items);
         if |keys| == |items| == n && (forall i | 0 <= i < n :: keys[i] in items) then Some(keys) else None)
    case _ => None
  }

  /** Assigning to one target.  A plain name is bound; a tuple or list of targets takes the
      elements apart; what any other target does is arbitrary. */
  function StoreOne(t: Expr, v: Value, st: State, o: Oracle): Option<State>
    decreases t, 1
  {
    if t.Name? then Some(st.(env := st.env[t.id := v]))
    else if IsUnpacking(t) && IsPlainIterable(v, st.heap) then
      match Elements(v, st.heap, |t.items|, o)
      case None => None
      case Some(vs) => StoreEach(t.items, vs, st, o)
    else o.store(t, v, st)
  }

  function StoreEach(ts: seq<Expr>, vs: seq<Value>, st: State, o: Oracle): Option<State>
    requires |ts| == |vs|
    decreases ts, 0
  {
    if ts == [] then Some(st) else
      match StoreOne(ts[0], vs[0], st, o)
      case None => None
      case Some(st1) => StoreEach(ts[1..], vs[1..], st1, o)
  }

  /** Targets are assigned left to right. */
  function Store(targets: seq<Expr>, v: Value, st: State, o: Oracle): Option<State> {
    if targets == [] then Some(st) else
      match StoreOne(targets[0], v, st, o)
      case None => None
      case Some(st1) => Store(targets[1..], v, st1, o)
  }

  function Exec(stmt: Stmt, st: State, o: Oracle): Option<State> {
    match stmt
    case Assign(targets, rhs) =>
      (match Eval(rhs, st, o)
       case Raised => None
       case Ok(v, st1) => Store(targets, v, st1, o))
    case ExprStmt(e) =>
      (match Eval(e, st, o)
       case Raised => None
       case Ok(_, st1) => Some(st1))
    case OtherStmt(code) => o.stmt(code, st)
  }

  /** The state after the first `n` statements, if none of them raised. */
  function Run(body: Script, n: nat, st: State, o: Oracle): Option<State>
    requires n <= |body|
  {
    if n == 0 then Some(st) else
      match Run(body, n - 1, st, o)
      case None => None
      case Some(st1) => Exec(body[n - 1], st1, o)
  }

  /** What `json.dumps` writes, as a tree.  Members keep their keys as values, since
      `sort_keys` makes the insertion order invisible. */
  datatype Json = JAtom(atom: Value) | JDict(members: map<Value, Json>) | JList(elems: seq<Json>)

  /** `j` is the JSON of `v`.  A cyclic object has none, and neither has an object
      that is not a dict or a list: `json.dumps` raises there. */
  ghost predicate Renders(heap: Heap, v: Value, j: Json)
    decreases j
  {
    match j
    case JAtom(a) => v == a && !a.Ref?
    case JDict(members) =>
      && v.Ref? && v.addr in heap && heap[v.addr].DictObj?
      && heap[v.addr].items.Keys == members.Keys
      && forall k | k in members :: Renders(heap, heap[v.addr].items[k], members[k])
    case JList(elems) =>
      && v.Ref? && v.addr in heap && heap[v.addr].ListObj?
      && |heap[v.addr].elems| == |elems|
      && forall i | 0 <= i < |elems| :: Renders(heap, heap[v.addr].elems[i], elems[i])
  }

  /** No reference dangles, which Python guarantees of every state. */
  ghost predicate Closed(st: State) {
    && (forall x | x in st.env :: InHeap(st.env[x], st.heap))
    && forall a | a in st.heap :: ObjectClosed(st.heap[a], st.heap)
  }

  ghost predicate InHeap(v: Value, heap: Heap) { v.Ref? ==> v.addr in heap }

  ghost predicate ObjectClosed(obj: Object, heap: Heap) {
    match obj
    case DictObj(items) => forall k | k in items :: InHeap(items[k], heap)
    case ListObj(elems) => forall i | 0 <= i < |elems| :: InHeap(elems[i], heap)
    case OtherObj(_) => true
  }

  /** Every cell of `h0` is in `h1` with the same contents. */
  ghost predicate Extends(h0: Heap, h1: Heap) {
    forall a | a in h0 :: a in h1 && h1[a] == h0[a]
  }

  /** A value has at most one rendering. */
  lemma {:induction false} RendersUnique(heap: Heap, v: Value, j: Json, j': Json)
    requires Renders(heap, v, j) && Renders(heap, v, j')
    ensures j == j'
    decreases j
  {
    match j
    case JAtom(_) =>
    case JDict(members) =>
      forall k | k in members ensures members[k] == j'.members[k] {
        RendersUnique(heap, heap[v.addr].items[k], members[k], j'.members[k]);
      }
      assert members == j'.members;
    case JList(elems) =>
      forall i | 0 <= i < |elems| ensures elems[i] == j'.elems[i] {
        RendersUnique(heap, heap[v.addr].elems[i], elems[i], j'.elems[i]);
      }
      assert elems == j'.elems;
  }

  /** Growing a heap renders nothing differently. */
  lemma {:induction false} RendersInExtension(st: State, h1: Heap, v: Value, j: Json)
    requires Closed(st) && InHeap(v, st.heap) && Extends(st.heap, h1)
    ensures Renders(st.heap, v, j) <==> Renders(h1, v, j)
    decreases j
  {
    if v.Ref? {
      var obj := st.heap[v.addr];
      assert ObjectClosed(obj, st.heap);
      match j
      case JAtom(_) =>
      case JDict(members) =>
        if obj.DictObj? && obj.items.Keys == members.Keys {
          forall k | k in members
            ensures Renders(st.heap, obj.items[k], members[k]) <==> Renders(h1, obj.items[k], members[k])
          {
            RendersInExtension(st, h1, obj.items[k], members[k]);
          }
        }
      case JList(elems) =>
        if obj.ListObj? && |obj.elems| == |elems| {
          forall i | 0 <= i < |elems|
            ensures Renders(st.heap, obj.elems[i], elems[i]) <==> Renders(h1, obj.elems[i], elems[i])
          {
            RendersInExtension(st, h1, obj.elems[i], elems[i]);
          }
        }
    }
  }
}
