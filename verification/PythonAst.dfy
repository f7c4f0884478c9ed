/** The part of Python's abstract syntax that the proof-writer analyser looks at.
    Forbidden nodes other than calls keep only their kind and their children. */
module PythonAst {
  import opened Wrappers

  datatype Constant = NoneConst | BoolConst(b: bool) | IntConst(n: int) | StrConst(s: string)

  datatype BoolOperator = And | Or
  datatype CompareOperator = NotEq | OtherCompare(name: string)
  datatype Operator = Add | OtherOperator(name: string)

  /** Nodes, besides calls, that may run code hidden in them or bind names. */
  datatype EffectKind =
    NamedExpr | Starred | DictComp | ListComp | SetComp | GeneratorExp | Lambda | Await | Yield | YieldFrom

  /** One `key: value` entry of a dict display; `**value` has no key. */
  datatype Entry = Entry(key: Option<Expr>, value: Expr)

  datatype Keyword = Keyword(arg: Option<string>, value: Expr)

  /** `Display` stands for the remaining read-only nodes: list, tuple and set
      displays, unary operators, slices and formatted strings. */
  datatype Expr =
    | Name(id: string)
    | Const(constant: Constant)
    | Dict(entries: seq<Entry>)
    | BoolOp(op: BoolOperator, operands: seq<Expr>)
    | Compare(first: Expr, ops: seq<CompareOperator>, comparators: seq<Expr>)
    | IfExp(test: Expr, body: Expr, orelse: Expr)
    | Subscript(container: Expr, index: Expr)
    | Attribute(owner: Expr, attr: string)
    | BinOp(left: Expr, operator: Operator, right: Expr)
    | Display(kind: string, items: seq<Expr>)
    | Call(func: Expr, args: seq<Expr>, keywords: seq<Keyword>)
    | Effect(effect: EffectKind, parts: seq<Expr>)

  datatype Stmt =
    | Assign(targets: seq<Expr>, rhs: Expr)
    | ExprStmt(expr: Expr)
    | OtherStmt(code: int)

  type Script = seq<Stmt>

  predicate IsConstantKey(key: Option<Expr>) { key.Some? && key.value.Const? }

  /** The key of an entry is a string literal. */
  predicate IsStringKey(key: Option<Expr>) {
    IsConstantKey(key) && key.value.constant.StrConst?
  }

  predicate IsKey(key: Option<Expr>, s: string) {
    IsStringKey(key) && key.value.constant.s == s
  }

  /** Every node of an expression, itself included (`ast.walk`). */
  function Walk(e: Expr): seq<Expr>
    decreases e, 1
  {
    [e] +
    match e
    case Name(_) => []
    case Const(_) => []
    case Dict(entries) => WalkEntries(entries)
    case BoolOp(_, operands) => WalkAll(operands)
    case Compare(first, _, comparators) => Walk(first) + WalkAll(comparators)
    case IfExp(test, body, orelse) => Walk(test) + Walk(body) + Walk(orelse)
    case Subscript(container, index) => Walk(container) + Walk(index)
    case Attribute(owner, _) => Walk(owner)
    case BinOp(left, _, right) => Walk(left) + Walk(right)
    case Display(_, items) => WalkAll(items)
    case Call(func, args, keywords) => Walk(func) + WalkAll(args) + WalkKeywords(keywords)
    case Effect(_, parts) => WalkAll(parts)
  }

  function WalkAll(es: seq<Expr>): seq<Expr>
    decreases es, 0
  {
    if es == [] then [] else Walk(es[0]) + WalkAll(es[1..])
  }

  function WalkEntry(entry: Entry): seq<Expr>
    decreases entry, 0
  {
    (match entry.key case None => [] case Some(key) => Walk(key)) + Walk(entry.value)
  }

  function WalkEntries(entries: seq<Entry>): seq<Expr>
    decreases entries, 0
  {
    if entries == [] then [] else WalkEntry(entries[0]) + WalkEntries(entries[1..])
  }

  function WalkKeyword(keyword: Keyword): seq<Expr>
    decreases keyword, 0
  {
    Walk(keyword.value)
  }

  function WalkKeywords(keywords: seq<Keyword>): seq<Expr>
    decreases keywords, 0
  {
    if keywords == [] then [] else WalkKeyword(keywords[0]) + WalkKeywords(keywords[1..])
  }
}
