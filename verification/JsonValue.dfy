/** JSON values as Python's `json.loads` yields them, and paths into them. */
module JsonValue {
  import opened Wrappers
  /** Finite floats are exact reals; NaN and the infinities are `JNonFinite`. */
  datatype Json =
    | JNull
    | JBool(b: bool)
    | JInt(n: int)
    | JFloat(r: real)
    | JNonFinite
    | JStr(s: string)
    | JList(items: seq<Json>)
    | JObject(fields: Row)

  type Row = map<string, Json>

  datatype Step = Key(name: string) | Index(i: nat)

  /** The value a path leads to, if it leads anywhere. */
  function At(v: Json, path: seq<Step>): Option<Json> {
    if path == [] then Some(v) else
      match path[0]
      case Key(k) => if v.JObject? && k in v.fields then At(v.fields[k], path[1..]) else None
      case Index(i) => if v.JList? && i < |v.items| then At(v.items[i], path[1..]) else None
  }

  /** `row.get(field)`, with `None` and JSON null told apart. */
  function Get(row: Row, field: string): Option<Json> {
    if field in row then Some(row[field]) else None
  }

  /** `isinstance(v, int)`: a bool is an int, True being 1. */
  function AsInt(v: Option<Json>): Option<int> {
    match v
    case Some(JInt(n)) => Some(n)
    case Some(JBool(b)) => Some(if b then 1 else 0)
    case _ => None
  }

  predicate IsText(v: Option<Json>, s: string) { v == Some(JStr(s)) }

  /** The row names its event. */
  predicate HasEvent(row: Row) {
    match Get(row, "event") case Some(JStr(s)) => s != "" case _ => false
  }

  lemma {:induction false} AtAppend(v: Json, path: seq<Step>, more: seq<Step>)
    ensures At(v, path + more) == match At(v, path) case None => None case Some(w) => At(w, more)
    decreases |path|
  {
    if path == [] {
      assert path + more == more;
    } else {
      assert (path + more)[1..] == path[1..] + more;
      match path[0]
      case Key(k) => if v.JObject? && k in v.fields { AtAppend(v.fields[k], path[1..], more); }
      case Index(i) => if v.JList? && i < |v.items| { AtAppend(v.items[i], path[1..], more); }
    }
  }

  /** A path starting below a child. */
  lemma AtChild(v: Json, step: Step, path: seq<Step>)
    requires At(v, [step]).Some?
    ensures At(v, [step] + path) == At(At(v, [step]).value, path)
  {}

  /** `clean` holds of every node of `v`; it is told which node is the exempt root. */
  ghost predicate Everywhere(v: Json, clean: (Json, bool) -> bool, exempt: bool) {
    forall path: seq<Step> | At(v, path).Some? :: clean(At(v, path).value, exempt && path == [])
  }

  ghost predicate EverywhereBelow(v: Json, clean: (Json, bool) -> bool) {
    && (v.JList? ==> forall i | 0 <= i < |v.items| :: Everywhere(v.items[i], clean, false))
    && (v.JObject? ==> forall k | k in v.fields :: Everywhere(v.fields[k], clean, false))
  }

  /** A tree is clean everywhere iff its root is and its children are. */
  lemma EverywhereIsRootAndBelow(v: Json, clean: (Json, bool) -> bool, exempt: bool)
    ensures Everywhere(v, clean, exempt) <==> clean(v, exempt) && EverywhereBelow(v, clean)
  {
    if Everywhere(v, clean, exempt) {
      ChildrenAreClean(v, clean, exempt);
    }
    if clean(v, exempt) && EverywhereBelow(v, clean) {
      forall path: seq<Step> | At(v, path).Some?
        ensures clean(At(v, path).value, exempt && path == [])
      {
        if path != [] {
          var child := if path[0].Key? then v.fields[path[0].name] else v.items[path[0].i];
          assert At(v, path) == At(child, path[1..]);
        }
      }
    }
  }

  lemma ChildrenAreClean(v: Json, clean: (Json, bool) -> bool, exempt: bool)
    requires Everywhere(v, clean, exempt)
    ensures clean(v, exempt) && EverywhereBelow(v, clean)
  {
    assert At(v, []) == Some(v);
    forall step: Step, path: seq<Step> | At(v, [step]).Some? && At(At(v, [step]).value, path).Some?
      ensures clean(At(At(v, [step]).value, path).value, false)
    {
      AtChild(v, step, path);
      assert At(v, [step] + path).Some?;
    }
    if v.JList? {
      forall i | 0 <= i < |v.items| ensures Everywhere(v.items[i], clean, false) {
        assert At(v, [Index(i)]) == Some(v.items[i]);
      }
    }
    if v.JObject? {
      forall k | k in v.fields ensures Everywhere(v.fields[k], clean, false) {
        assert At(v, [Key(k)]) == Some(v.fields[k]);
      }
    }
  }

  /** What is clean everywhere is clean everywhere below any of its nodes. */
  lemma EverywhereInSubtree(v: Json, clean: (Json, bool) -> bool, exempt: bool, path: seq<Step>)
    requires Everywhere(v, clean, exempt) && At(v, path).Some?
    ensures Everywhere(At(v, path).value, clean, exempt && path == [])
  {
    var w := At(v, path).value;
    forall more: seq<Step> | At(w, more).Some?
      ensures clean(At(w, more).value, exempt && path == [] && more == [])
    {
      AtAppend(v, path, more);
      assert clean(At(v, path + more).value, exempt && path + more == []);
    }
  }
}
