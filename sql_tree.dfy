/** The part of the JSqlParser statement tree that the condition engine reads and rewrites.
    Parsing and printing belong to JSqlParser and are not part of this model; the engine
    receives them as parameters. */
module SqlTree {
  import opened Wrappers

  /** Expressions. `And`, `Or` and `Binary` are the BinaryExpression subclasses (EqualsTo,
      comparisons, LIKE, arithmetic, ... are `Binary` with their operator); `SubSelect` is a
      ParenthesedSelect used as an expression; `Other` is every expression the engine neither
      inspects nor descends into (functions, BETWEEN, IS NULL, CASE, literals other than longs). */
  datatype Expr =
    | And(left: Expr, right: Expr)
    | Or(left: Expr, right: Expr)
    | Binary(op: string, left: Expr, right: Expr)
    | Not(operand: Expr)
    | In(inLeft: Expr, inRight: Option<Expr>, isNot: bool)
    | Exists(operand: Expr, isNot: bool)
    | SubSelect(select: Select)
    | Column(table: Option<string>, name: string)
    | Long(value: int)
    | NamedParam(paramName: string)
    | Other(text: string)

  /** A table reference: its name and optional alias. */
  datatype Table = Table(name: string, alias: Option<string>)

  /** A FROM item or JOIN right item: a table, a parenthesised sub-select, or anything else
      (table functions, lateral sub-joins, values lists). */
  datatype FromItem = TableItem(table: Table) | SubQuery(subquery: Select) | OtherItem

  /** A join: JSqlParser's left/right/full flags, its right item and its ON expressions. */
  datatype Join = Join(isLeft: bool, isRight: bool, isFull: bool, rightItem: FromItem, onExpressions: seq<Expr>)

  /** A plain SELECT. A missing join list is the empty sequence, a missing WHERE is None. */
  datatype PlainSelect = PlainSelect(
    selectItems: seq<Expr>,
    fromItem: FromItem,
    joins: seq<Join>,
    where: Option<Expr>,
    having: Option<Expr>)

  /** Select statements: a plain select, a set operation (UNION, INTERSECT, ...) over branches,
      a parenthesised select, or another kind (VALUES, WITH-only forms). */
  datatype Select =
    | Plain(plain: PlainSelect)
    | SetOperationList(selects: seq<Select>, operators: seq<string>)
    | Parenthesed(inner: Select)
    | OtherSelect(text: string)

  /** A parsed statement: the engine only rewrites SELECT statements. */
  datatype Statement = SelectStatement(select: Select) | OtherStatement(text: string)

  /** The outcome of CCJSqlParserUtil.parse. */
  datatype ParseOutcome = Parsed(statement: Statement) | ParseError

  /** JSqlParser's parse and toString, supplied from outside the model. */
  datatype SqlLibrary = SqlLibrary(
    parse: string -> ParseOutcome,
    render: Select -> string,
    show: Expr -> string)
}
