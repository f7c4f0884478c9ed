/** What a call of `write_text` puts in a file: the usual meaning of `json.dumps`, `+`,
    `Path` and `write_text` in that one statement.  Every other call is the oracle's. */
module PythonFiles {
  import opened Wrappers
  import opened PythonAst
  import opened PythonEval

  /** A text: characters, and printed JSON, whose characters the tree determines. */
  datatype Piece = Plain(chars: string) | Dumped(json: Json)
  type Text = seq<Piece>

  /** A file, by its path or by the object whose `write_text` is called. */
  datatype File = Named(path: string) | Held(value: Value)

  /** The constant that a keyword is given, if there is one keyword of that name. */
  function Setting(keywords: seq<Keyword>, name: string): Option<Constant> {
    if keywords == [] then None
    else if keywords[0].arg == Some(name) then
      (if keywords[0].value.Const? then Some(keywords[0].value.constant) else None)
    else Setting(keywords[1..], name)
  }

  /** `json.dumps(<value>, indent=2, sort_keys=True)`, or any options that Python reads so. */
  predicate IsDump(e: Expr) {
    && e.Call? && e.func == Attribute(Name("json"), "dumps") && |e.args| == 1 && |e.keywords| == 2
    && Setting(e.keywords, "indent").Some? && KeyValue(Setting(e.keywords, "indent").value) == IntV(2)
    && Setting(e.keywords, "sort_keys").Some? && IsTrue(Setting(e.keywords, "sort_keys").value)
  }

  predicate IsTrue(c: Constant) {
    match c
    case NoneConst => false
    case BoolConst(b) => b
    case IntConst(n) => n != 0
    case StrConst(s) => s != ""
  }

  /** The text that `e` evaluates to, if it is one, and the state after. */
  ghost function TextOf(e: Expr, st: State, o: Oracle): Option<(Text, State)> {
    if IsDump(e) then
      match Eval(e.args[0], st, o)
      case Raised => None
      case Ok(v, st1) =>
        if exists j :: Renders(st1.heap, v, j) then
          var j :| Renders(st1.heap, v, j);
          Some(([Dumped(j)], st1))
        else None
    else if e.BinOp? && e.operator == Add then
      match TextOf(e.left, st, o)
      case None => None
      case Some((a, st1)) =>
        match TextOf(e.right, st1, o)
        case None => None
        case Some((b, st2)) => Some((a + b, st2))
    else
      match Eval(e, st, o)
      case Ok(StrV(s), st1) => Some(([Plain(s)], st1))
      case _ => None
  }

  /** The path that `Path(...)` around a string makes. */
  function PathText(e: Expr): Option<string> {
    if e.Call? && e.func == Name("Path") && |e.args| == 1 && e.keywords == [] then
      if e.args[0].Const? && e.args[0].constant.StrConst? then Some(e.args[0].constant.s) else PathText(e.args[0])
    else None
  }

  function Receiver(e: Expr, st: State, o: Oracle): Option<(File, State)> {
    match PathText(e)
    case Some(path) => Some((Named(path), st))
    case None =>
      match Eval(e, st, o)
      case Raised => None
      case Ok(v, st1) => Some((Held(v), st1))
  }

  /** What `<receiver>.write_text(<text>)` puts where: the receiver is evaluated first, then
      the text, then the file is written. */
  ghost function Put(call: Expr, st: State, o: Oracle): Option<(File, Text)> {
    if !(call.Call? && call.func.Attribute? && call.func.attr == "write_text" && |call.args| == 1 && call.keywords == []) then
      None
    else
      match Receiver(call.func.owner, st, o)
      case None => None
      case Some((file, st1)) =>
        match TextOf(call.args[0], st1, o)
        case None => None
        case Some((text, _)) => Some((file, text))
  }

  /** The JSON `j` and a newline are put in a file. */
  ghost predicate PutsJson(call: Expr, st: State, o: Oracle, j: Json) {
    Put(call, st, o).Some? && Put(call, st, o).value.1 == [Dumped(j), Plain("\n")]
  }
}
