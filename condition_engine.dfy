/** JSqlDynamicSqlParser's condition injection, as functions over the statement tree.

    The three public rewrites share one structure and differ in a few decisions, so they are
    one definition parameterised by `Mode`:
      - DeleteOnly: appendDeleteCondition (processSelect / processPlainSelect),
      - TenantOnly: appendTenantCondition (processTenantSelect / processTenantPlainSelect),
      - Unified:    appendConditions (processUnifiedSelect / processUnifiedPlainSelect).
    The source rewrites the parsed tree in place; here each rewrite returns the new tree. */
module ConditionEngine {
  import opened Wrappers
  import opened Text
  import opened SqlTree
  import opened TableCache

  /** TENANT_PARAM_NAME: the named placeholder every tenant predicate compares against. */
  const TENANT_PARAM_NAME: string := "myjpaTenantId"

  datatype Mode = DeleteOnly | TenantOnly | Unified

  /** What a rewrite consults: the static tenantEnabled / tenantColumn settings, the table
      registry, and Expression.toString for the ON-clause check. */
  datatype Env = Env(
    tenantEnabled: bool,
    tenantColumn: string,
    registry: Registry,
    show: Expr -> string)

  /** JoinType. */
  datatype JoinKind = FromTable | InnerJoin | LeftJoin | RightJoin | FullJoin

  /** getJoinType: the left flag wins over right, right over full; anything else is INNER. */
  function GetJoinType(j: Join): (k: JoinKind)
    ensures k != FromTable
    ensures k == LeftJoin <==> j.isLeft
    ensures k == RightJoin <==> !j.isLeft && j.isRight
    ensures k == FullJoin <==> !j.isLeft && !j.isRight && j.isFull
    ensures k == InnerJoin <==> !j.isLeft && !j.isRight && !j.isFull
  {
    if j.isLeft then LeftJoin
    else if j.isRight then RightJoin
    else if j.isFull then FullJoin
    else InnerJoin
  }

  /** LEFT and RIGHT join tables get their predicates in the join's ON clause; the FROM table
      and INNER and FULL join tables get them in WHERE. */
  predicate GoesToOn(k: JoinKind)
  {
    k == LeftJoin || k == RightJoin
  }

  /** The name a predicate qualifies its column with: the alias when there is one. */
  function TableRef(t: Table): string
  {
    if t.alias.Some? then t.alias.value else t.name
  }

  // ---------------------------------------------------------------------------------------
  // The idempotency check: isDeleteConditionExists / containsDeleteColumn / isTargetColumn.

  /** isTargetColumn: the column's name matches ignoring case, and it is unqualified or
      qualified by the table's alias or name (ignoring case). */
  function IsTargetColumn(c: Expr, column: string, alias: Option<string>, tableName: string): (r: bool)
    ensures r ==> c.Column? && ToLower(c.name) == ToLower(column)
    ensures c.Column? && c.table.None? ==> (r <==> ToLower(c.name) == ToLower(column))
    ensures (c.Column? && c.table.Some? && ToLower(c.table.value) != ToLower(tableName)
             && (alias.None? || ToLower(c.table.value) != ToLower(alias.value))) ==> !r
  {
    && c.Column?
    && EqualsIgnoreCase(column, c.name)
    && (|| c.table.None?
        || (alias.Some? && EqualsIgnoreCase(alias.value, c.table.value))
        || EqualsIgnoreCase(tableName, c.table.value))
  }

  predicate IsBinaryExpression(e: Expr)
  {
    e.And? || e.Or? || e.Binary?
  }

  /** A binary node whose left operand is the target column: the test containsDeleteColumn
      applies to each node it visits. */
  predicate ConstrainsColumn(e: Expr, column: string, alias: Option<string>, tableName: string)
  {
    IsBinaryExpression(e) && IsTargetColumn(e.left, column, alias, tableName)
  }

  /** containsDeleteColumn: tests the node, then descends through AND and OR only. */
  function ContainsColumn(e: Expr, column: string, alias: Option<string>, tableName: string): (r: bool)
    ensures r ==> IsBinaryExpression(e)
    ensures ConstrainsColumn(e, column, alias, tableName) ==> r
    ensures !e.And? && !e.Or? ==> (r <==> ConstrainsColumn(e, column, alias, tableName))
  {
    || ConstrainsColumn(e, column, alias, tableName)
    || (e.And? && (ContainsColumn(e.left, column, alias, tableName) || ContainsColumn(e.right, column, alias, tableName)))
    || (e.Or? && (ContainsColumn(e.left, column, alias, tableName) || ContainsColumn(e.right, column, alias, tableName)))
  }

  /** isDeleteConditionExists (isTenantConditionExists is the same check). */
  function ConditionExists(where: Option<Expr>, column: string, alias: Option<string>, tableName: string): (r: bool)
    ensures r ==> where.Some? && IsBinaryExpression(where.value)
    ensures where.Some? && ConstrainsColumn(where.value, column, alias, tableName) ==> r
  {
    where.Some? && ContainsColumn(where.value, column, alias, tableName)
  }

  // ---------------------------------------------------------------------------------------
  // Predicate builders.

  function EqualsTo(left: Expr, right: Expr): Expr
  {
    Binary("=", left, right)
  }

  /** createDeleteConditionExpression, used by the delete-only ON path: the column is
      qualified by the alias only when the alias has non-blank text. */
  function DeleteConditionForJoin(info: DeleteInfo, alias: Option<string>): (r: Expr)
    ensures IsInjected(r) && r.left.name == info.delColumn && r.right == Long(info.UnDelValue())
    ensures r.left.table.Some? <==> alias.Some? && Trim(alias.value) != ""
    ensures forall tableName :: ContainsColumn(r, info.delColumn, alias, tableName)
  {
    EqualsTo(Column(if alias.Some? && Trim(alias.value) != "" then alias else None, info.delColumn),
             Long(info.UnDelValue()))
  }

  /** createDeleteConditionExpressionForTable, and the delete predicate of the unified pass:
      always qualified by the alias, or the table name when there is no alias. */
  function DeleteConditionForTable(info: DeleteInfo, t: Table): (r: Expr)
    ensures IsInjected(r) && r.left.name == info.delColumn && r.right == Long(info.UnDelValue())
    ensures r.left.table.Some?
    ensures ContainsColumn(r, info.delColumn, t.alias, t.name)
  {
    EqualsTo(Column(Some(TableRef(t)), info.delColumn), Long(info.UnDelValue()))
  }

  /** createTenantConditionExpression: qualified unless the reference is blank after trimming. */
  function TenantCondition(tenantColumn: string, tableRef: string): (r: Expr)
    ensures IsInjected(r) && r.left.name == tenantColumn && r.right == NamedParam(TENANT_PARAM_NAME)
    ensures r.left.table.Some? <==> Trim(tableRef) != ""
    ensures ContainsColumn(r, tenantColumn, None, tableRef)
  {
    EqualsTo(Column(if Trim(tableRef) != "" then Some(tableRef) else None, tenantColumn),
             NamedParam(TENANT_PARAM_NAME))
  }

  /** The table's delete descriptor when the pass injects delete predicates and the
      descriptor is present and valid. */
  function ActiveDeleteInfo(m: Mode, env: Env, t: Table): Option<DeleteInfo>
  {
    var info := env.registry.DeleteInfoByTableName(Some(t.name));
    if m != TenantOnly && info.Some? && info.value.valid then info else None
  }

  /** Whether the pass injects tenant predicates for this table. The tenant-only pass checks
      tenantEnabled at its entry point, the unified pass per table. */
  predicate TenantActive(m: Mode, env: Env, t: Table)
  {
    m != DeleteOnly && (m == TenantOnly || env.tenantEnabled) && env.registry.HasTenantColumn(t.name)
  }

  /** The delete predicate a table receives, if any (addTableConditionByType and the first
      half of collectUnifiedConditions). */
  function DeletePart(m: Mode, env: Env, t: Table, kind: JoinKind, where: Option<Expr>): seq<Expr>
  {
    var info := ActiveDeleteInfo(m, env, t);
    if info.Some? && !ConditionExists(where, info.value.delColumn, t.alias, t.name) then
      [if m == DeleteOnly && GoesToOn(kind) then DeleteConditionForJoin(info.value, t.alias)
       else DeleteConditionForTable(info.value, t)]
    else []
  }

  /** The tenant predicate a table receives, if any (addTableTenantConditionByType and the
      second half of collectUnifiedConditions). */
  function TenantPart(m: Mode, env: Env, t: Table, where: Option<Expr>): seq<Expr>
  {
    if TenantActive(m, env, t) && !ConditionExists(where, env.tenantColumn, t.alias, t.name) then
      [TenantCondition(env.tenantColumn, TableRef(t))]
    else []
  }

  /** The shape of every injected predicate: a column equal to a long or to a named
      parameter. */
  predicate IsInjected(c: Expr)
  {
    c.Binary? && c.op == "=" && c.left.Column? && (c.right.Long? || c.right.NamedParam?)
  }

  /** Every predicate a table receives in one pass: delete before tenant. */
  function TableConditions(m: Mode, env: Env, t: Table, kind: JoinKind, where: Option<Expr>): (r: seq<Expr>)
    ensures |r| <= 2
    ensures m != Unified ==> |r| <= 1
    ensures forall c | c in r :: IsInjected(c)
  {
    DeletePart(m, env, t, kind, where) + TenantPart(m, env, t, where)
  }

  /** The text the delete-only and tenant-only ON paths look for in the existing ON
      expressions before adding their predicate; the unified path does not look. */
  function OnGuard(m: Mode, env: Env, t: Table): Option<string>
  {
    match m
    case DeleteOnly =>
      var info := ActiveDeleteInfo(m, env, t);
      if info.Some? then Some(TableRef(t) + "." + info.value.delColumn) else None
    case TenantOnly => Some(TableRef(t) + "." + env.tenantColumn)
    case Unified => None
  }

  // ---------------------------------------------------------------------------------------
  // Discovery: the whereConditions / joinConditions lists of process*PlainSelect.

  /** The predicates owed to one LEFT/RIGHT join: the join's position, the predicates, and
      the text guard of the ON path. */
  datatype OnCondition = OnCondition(joinIndex: nat, conditions: seq<Expr>, guard: Option<string>)

  datatype Buckets = Buckets(whereConditions: seq<Expr>, joinConditions: seq<OnCondition>)

  predicate WellFormedOn(pending: seq<OnCondition>)
  {
    forall c | c in pending :: c.conditions != [] && forall e | e in c.conditions :: IsInjected(e)
  }

  predicate AllInjected(cs: seq<Expr>)
  {
    forall c | c in cs :: IsInjected(c)
  }

  /** One table reference's contribution (add*ConditionByType / collectUnifiedConditions);
      FROM and JOIN items that are not tables contribute nothing. */
  function AddTable(b: Buckets, m: Mode, env: Env, item: FromItem, kind: JoinKind, index: nat, where: Option<Expr>): (r: Buckets)
    ensures WellFormedOn(b.joinConditions) ==> WellFormedOn(r.joinConditions)
    ensures AllInjected(b.whereConditions) ==> AllInjected(r.whereConditions)
  {
    if !item.TableItem? then b
    else
      var cs := TableConditions(m, env, item.table, kind, where);
      if cs == [] then b
      else if GoesToOn(kind) then
        b.(joinConditions := b.joinConditions + [OnCondition(index, cs, OnGuard(m, env, item.table))])
      else b.(whereConditions := b.whereConditions + cs)
  }

  /** The loop over the joins, in order, after the FROM item. */
  function CollectJoins(m: Mode, env: Env, joins: seq<Join>, where: Option<Expr>, init: Buckets): (r: Buckets)
    ensures WellFormedOn(init.joinConditions) ==> WellFormedOn(r.joinConditions)
    ensures AllInjected(init.whereConditions) ==> AllInjected(r.whereConditions)
  {
    if |joins| == 0 then init
    else
      var j := joins[|joins| - 1];
      AddTable(CollectJoins(m, env, joins[..|joins| - 1], where, init), m, env, j.rightItem, GetJoinType(j), |joins| - 1, where)
  }

  /** Discovery for a plain select, always against its original WHERE. */
  function Discover(m: Mode, env: Env, ps: PlainSelect): (r: Buckets)
    ensures WellFormedOn(r.joinConditions)
    ensures AllInjected(r.whereConditions)
  {
    CollectJoins(m, env, ps.joins, ps.where, AddTable(Buckets([], []), m, env, ps.fromItem, FromTable, 0, ps.where))
  }

  // ---------------------------------------------------------------------------------------
  // Merging.

  /** The left-associated AND of a non-empty list, as the build*Expression loops fold it. */
  function FoldAnd(es: seq<Expr>): (r: Expr)
    requires |es| > 0
    ensures |es| == 1 ==> r == es[0]
    ensures |es| > 1 ==> r.And? && r.right == es[|es| - 1]
  {
    if |es| == 1 then es[0] else And(FoldAnd(es[..|es| - 1]), es[|es| - 1])
  }

  /** The WHERE update: unchanged when nothing is owed, otherwise the old WHERE AND the fold. */
  function MergeWhere(where: Option<Expr>, cs: seq<Expr>): (r: Option<Expr>)
    ensures cs == [] ==> r == where
    ensures cs != [] ==> r.Some?
  {
    if cs == [] then where
    else if where.Some? then Some(And(where.value, FoldAnd(cs)))
    else Some(FoldAnd(cs))
  }

  /** Some existing ON expression prints with the given text in it. */
  predicate MentionedInOn(ons: seq<Expr>, text: string, show: Expr -> string)
  {
    exists i | 0 <= i < |ons| :: Contains(show(ons[i]), text)
  }

  /** addDeleteConditionToJoinOn / addTenantConditionToJoinOn / applyUnifiedConditionsToJoinOn
      for one join's ON expressions. */
  function MergeOn(ons: seq<Expr>, c: OnCondition, show: Expr -> string): (r: seq<Expr>)
    requires c.conditions != []
    ensures |r| == 1 || r == ons
  {
    if ons == [] then [FoldAnd(c.conditions)]
    else if c.guard.Some? && MentionedInOn(ons, c.guard.value, show) then ons
    else [And(FoldAnd(ons), FoldAnd(c.conditions))]
  }

  /** The loop over joinConditions, in discovery order. Only ON expressions change. */
  function ApplyOn(joins: seq<Join>, pending: seq<OnCondition>, show: Expr -> string): (r: seq<Join>)
    requires WellFormedOn(pending)
    ensures |r| == |joins|
    ensures forall i :: 0 <= i < |joins| ==> r[i] == joins[i].(onExpressions := r[i].onExpressions)
  {
    if |pending| == 0 then joins
    else
      var js := ApplyOn(joins, pending[..|pending| - 1], show);
      var c := pending[|pending| - 1];
      if c.joinIndex < |js| then
        js[c.joinIndex := js[c.joinIndex].(onExpressions := MergeOn(js[c.joinIndex].onExpressions, c, show))]
      else js
  }

  // ---------------------------------------------------------------------------------------
  // The rewrite.

  /** process*Select: plain selects and the branches of a set operation are rewritten;
      a parenthesised select or any other kind of select is left alone. */
  function RewriteSelect(m: Mode, env: Env, s: Select): (r: Select)
    ensures s.SetOperationList? ==> r.SetOperationList? && r.operators == s.operators && |r.selects| == |s.selects|
    ensures s.SetOperationList? ==> forall i :: 0 <= i < |s.selects| ==> r.selects[i] == RewriteSelect(m, env, s.selects[i])
    ensures !s.Plain? && !s.SetOperationList? ==> r == s
    decreases s
  {
    match s
    case Plain(ps) => Plain(RewritePlain(m, env, ps))
    case SetOperationList(branches, operators) => SetOperationList(RewriteBranches(m, env, branches), operators)
    case _ => s
  }

  function RewriteBranches(m: Mode, env: Env, branches: seq<Select>): (r: seq<Select>)
    ensures |r| == |branches|
    decreases branches
  {
    seq(|branches|, i requires 0 <= i < |branches| => RewriteSelect(m, env, branches[i]))
  }

  /** process*PlainSelect. Discovery reads the original WHERE; FROM and JOIN sub-selects are
      rewritten on their own; WHERE gets the fold of its bucket, each owed join its ON
      predicates; then the select list and the WHERE are searched for sub-selects. The
      source searches the merged WHERE; searching the original one and merging after gives
      the same tree, because the injected predicates hold no sub-select
      (ConditionProperties.SearchCommutesWithMerge). HAVING is never visited. */
  function RewritePlain(m: Mode, env: Env, ps: PlainSelect): (r: PlainSelect)
    ensures r.having == ps.having
    ensures |r.selectItems| == |ps.selectItems|
    ensures !ps.fromItem.SubQuery? ==> r.fromItem == ps.fromItem
    ensures |r.joins| == |ps.joins|
    ensures forall i :: 0 <= i < |ps.joins| ==>
      && r.joins[i].isLeft == ps.joins[i].isLeft
      && r.joins[i].isRight == ps.joins[i].isRight
      && r.joins[i].isFull == ps.joins[i].isFull
      && (!ps.joins[i].rightItem.SubQuery? ==> r.joins[i].rightItem == ps.joins[i].rightItem)
      && r.joins[i].rightItem.SubQuery? == ps.joins[i].rightItem.SubQuery?
    decreases ps
  {
    var b := Discover(m, env, ps);
    PlainSelect(
      RewriteItems(m, env, ps.selectItems),
      RewriteFrom(m, env, ps.fromItem),
      ApplyOn(RewriteJoinItems(m, env, ps.joins), b.joinConditions, env.show),
      MergeWhere(SearchWhere(m, env, ps.where), b.whereConditions),
      ps.having)
  }

  /** A FROM or JOIN item: a parenthesised sub-select is rewritten, anything else kept. */
  function RewriteFrom(m: Mode, env: Env, item: FromItem): (r: FromItem)
    ensures !item.SubQuery? ==> r == item
    ensures item.SubQuery? ==> r.SubQuery?
    decreases item
  {
    if item.SubQuery? then SubQuery(RewriteSelect(m, env, item.subquery)) else item
  }

  function RewriteJoinItems(m: Mode, env: Env, joins: seq<Join>): (r: seq<Join>)
    ensures |r| == |joins|
    ensures forall i :: 0 <= i < |joins| ==> r[i] == joins[i].(rightItem := r[i].rightItem)
    ensures forall i :: 0 <= i < |joins| && !joins[i].rightItem.SubQuery? ==> r[i] == joins[i]
    decreases joins
  {
    seq(|joins|, i requires 0 <= i < |joins| => joins[i].(rightItem := RewriteFrom(m, env, joins[i].rightItem)))
  }

  /** The select list: the delete-only pass searches every item expression; the tenant-only
      and unified passes rewrite only an item that is itself a sub-select. */
  function RewriteItems(m: Mode, env: Env, items: seq<Expr>): (r: seq<Expr>)
    ensures |r| == |items|
    decreases items
  {
    seq(|items|, i requires 0 <= i < |items| => RewriteItem(m, env, items[i]))
  }

  function RewriteItem(m: Mode, env: Env, item: Expr): (r: Expr)
    ensures r.SubSelect? <==> item.SubSelect?
    ensures IsBinaryExpression(r) <==> IsBinaryExpression(item)
    ensures m != DeleteOnly && !item.SubSelect? ==> r == item
    decreases item, 1
  {
    if m == DeleteOnly then Search(m, env, item)
    else if item.SubSelect? then SubSelect(RewriteSelect(m, env, item.select))
    else item
  }

  function SearchWhere(m: Mode, env: Env, where: Option<Expr>): (r: Option<Expr>)
    ensures r.None? <==> where.None?
    decreases where
  {
    if where.Some? then Some(Search(m, env, where.value)) else None
  }

  /** process*ExpressionSubQueries: rewrites sub-selects found directly, under NOT, in the
      right side of IN, under EXISTS, and on either side of a binary operator; every other
      expression is a leaf for this search. */
  function Search(m: Mode, env: Env, e: Expr): (r: Expr)
    ensures r.SubSelect? <==> e.SubSelect?
    ensures r.And? <==> e.And?
    ensures r.Or? <==> e.Or?
    ensures r.Binary? <==> e.Binary?
    ensures e.Binary? ==> r.op == e.op
    ensures e.In? ==> r.In? && r.inLeft == e.inLeft && r.isNot == e.isNot && (r.inRight.None? <==> e.inRight.None?)
    ensures e.Column? || e.Long? || e.NamedParam? || e.Other? ==> r == e
    decreases e, 0
  {
    match e
    case SubSelect(s) => SubSelect(RewriteSelect(m, env, s))
    case Not(x) => Not(Search(m, env, x))
    case In(l, right, isNot) => In(l, if right.Some? then Some(Search(m, env, right.value)) else None, isNot)
    case Exists(x, isNot) => Exists(Search(m, env, x), isNot)
    case And(l, r) => And(Search(m, env, l), Search(m, env, r))
    case Or(l, r) => Or(Search(m, env, l), Search(m, env, r))
    case Binary(op, l, r) => Binary(op, Search(m, env, l), Search(m, env, r))
    case _ => e
  }
}
