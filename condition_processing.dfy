/** The loops of JSqlDynamicSqlParser's condition injection, each proved to compute the
    function of ConditionEngine that specifies it. */
module ConditionProcessing {
  import opened Wrappers
  import opened Text
  import opened SqlTree
  import opened TableCache
  import opened ConditionEngine

  /** buildDeleteConditionsExpression / buildTenantConditionsExpression /
      buildUnifiedWhereExpression: folds the predicates left to right into one AND chain. */
  method BuildConditionsExpression(conditions: seq<Expr>) returns (result: Expr)
    requires |conditions| > 0
    ensures result == FoldAnd(conditions)
  {
    result := conditions[0];
    var i := 1;
    while i < |conditions|
      invariant 1 <= i <= |conditions|
      invariant result == FoldAnd(conditions[..i])
    {
      assert conditions[..i + 1][..i] == conditions[..i];
      result := And(result, conditions[i]);
      i := i + 1;
    }
    assert conditions[..i] == conditions;
  }

  /** add*ConditionToJoinOn / applyUnifiedConditionsToJoinOn: the new ON expressions of one
      join owed predicates. */
  method MergeJoinOn(ons: seq<Expr>, c: OnCondition, show: Expr -> string) returns (r: seq<Expr>)
    requires c.conditions != []
    ensures r == MergeOn(ons, c, show)
  {
    var newConditions := BuildConditionsExpression(c.conditions);
    if |ons| > 0 {
      if c.guard.Some? {
        var k := 0;
        while k < |ons|
          invariant 0 <= k <= |ons|
          invariant forall j :: 0 <= j < k ==> !Contains(show(ons[j]), c.guard.value)
        {
          if Contains(show(ons[k]), c.guard.value) {
            return ons;
          }
          k := k + 1;
        }
      }
      var combined := BuildConditionsExpression(ons);
      r := [And(combined, newConditions)];
    } else {
      r := [newConditions];
    }
  }

  /** The loop over joinConditions. */
  method ApplyJoinConditions(joins: seq<Join>, pending: seq<OnCondition>, show: Expr -> string) returns (r: seq<Join>)
    requires WellFormedOn(pending)
    ensures r == ApplyOn(joins, pending, show)
  {
    r := joins;
    var k := 0;
    while k < |pending|
      invariant 0 <= k <= |pending|
      invariant WellFormedOn(pending[..k])
      invariant r == ApplyOn(joins, pending[..k], show)
    {
      assert pending[..k + 1][..k] == pending[..k];
      var c := pending[k];
      assert c in pending;
      if c.joinIndex < |r| {
        var ons := MergeJoinOn(r[c.joinIndex].onExpressions, c, show);
        r := r[c.joinIndex := r[c.joinIndex].(onExpressions := ons)];
      }
      k := k + 1;
    }
    assert pending[..k] == pending;
  }

  /** process*Select. */
  method ProcessSelect(m: Mode, env: Env, s: Select) returns (r: Select)
    ensures r == RewriteSelect(m, env, s)
    decreases s
  {
    match s
    case Plain(ps) =>
      var p := ProcessPlainSelect(m, env, ps);
      r := Plain(p);
    case SetOperationList(branches, operators) =>
      var out: seq<Select> := [];
      var i := 0;
      while i < |branches|
        invariant 0 <= i <= |branches|
        invariant |out| == i
        invariant forall j :: 0 <= j < i ==> out[j] == RewriteSelect(m, env, branches[j])
      {
        var b := ProcessSelect(m, env, branches[i]);
        out := out + [b];
        i := i + 1;
      }
      r := SetOperationList(out, operators);
    case _ =>
      r := s;
  }

  /** process*PlainSelect. The WHERE search runs on the original WHERE and the fold is
      attached afterwards, which gives the tree the source builds
      (ConditionProperties.SearchCommutesWithMerge). */
  method ProcessPlainSelect(m: Mode, env: Env, ps: PlainSelect) returns (r: PlainSelect)
    ensures r == RewritePlain(m, env, ps)
    decreases ps, 3
  {
    var buckets, fromItem, joins := CollectConditions(m, env, ps);

    var fold: Option<Expr> := None;
    if |buckets.whereConditions| > 0 {
      var f := BuildConditionsExpression(buckets.whereConditions);
      fold := Some(f);
    }

    joins := ApplyJoinConditions(joins, buckets.joinConditions, env.show);

    var items := ProcessSelectItems(m, env, ps.selectItems);

    var where: Option<Expr> := None;
    if ps.where.Some? {
      where := Some(Search(m, env, ps.where.value));
    }
    if fold.Some? {
      where := if where.Some? then Some(And(where.value, fold.value)) else fold;
    }
    r := PlainSelect(items, fromItem, joins, where, ps.having);
  }

  /** The discovery half of process*PlainSelect: the FROM item, then each join in order,
      against the original WHERE. FROM and JOIN sub-selects are rewritten as they are met. */
  method CollectConditions(m: Mode, env: Env, ps: PlainSelect) returns (buckets: Buckets, fromItem: FromItem, joins: seq<Join>)
    ensures buckets == Discover(m, env, ps)
    ensures fromItem == RewriteFrom(m, env, ps.fromItem)
    ensures joins == RewriteJoinItems(m, env, ps.joins)
    decreases ps, 2
  {
    var start := AddTable(Buckets([], []), m, env, ps.fromItem, FromTable, 0, ps.where);
    fromItem := ps.fromItem;
    if fromItem.SubQuery? {
      var sub := ProcessSelect(m, env, fromItem.subquery);
      fromItem := SubQuery(sub);
    }
    buckets, joins := CollectJoinConditions(m, env, ps, start);
  }

  /** The loop over the joins of process*PlainSelect. */
  method CollectJoinConditions(m: Mode, env: Env, ps: PlainSelect, start: Buckets) returns (buckets: Buckets, joins: seq<Join>)
    ensures buckets == CollectJoins(m, env, ps.joins, ps.where, start)
    ensures joins == RewriteJoinItems(m, env, ps.joins)
    decreases ps, 1
  {
    buckets := start;
    joins := ps.joins;
    var i := 0;
    while i < |joins|
      invariant 0 <= i <= |joins| == |ps.joins|
      invariant buckets == CollectJoins(m, env, ps.joins[..i], ps.where, start)
      invariant RewrittenUpTo(m, env, ps.joins, joins, i)
    {
      CollectJoinsSnoc(m, env, ps.joins, ps.where, start, i);
      var j := ps.joins[i];
      RewrittenStep(m, env, ps.joins, joins, i);
      if j.rightItem.TableItem? {
        buckets := AddTable(buckets, m, env, j.rightItem, GetJoinType(j), i, ps.where);
      } else if j.rightItem.SubQuery? {
        var sub := ProcessSelect(m, env, j.rightItem.subquery);
        joins := joins[i := j.(rightItem := SubQuery(sub))];
      }
      i := i + 1;
    }
    assert ps.joins[..i] == ps.joins;
    RewrittenAll(m, env, ps.joins, joins);
  }

  /** The first i joins have their right items rewritten, the rest are as they were. */
  ghost predicate RewrittenUpTo(m: Mode, env: Env, orig: seq<Join>, joins: seq<Join>, i: nat)
  {
    && |joins| == |orig|
    && (forall k :: 0 <= k < i && k < |orig| ==> joins[k] == orig[k].(rightItem := RewriteFrom(m, env, orig[k].rightItem)))
    && (forall k :: i <= k < |orig| ==> joins[k] == orig[k])
  }

  lemma RewrittenStep(m: Mode, env: Env, orig: seq<Join>, joins: seq<Join>, i: nat)
    requires RewrittenUpTo(m, env, orig, joins, i) && i < |orig|
    ensures RewrittenUpTo(m, env, orig, joins[i := orig[i].(rightItem := RewriteFrom(m, env, orig[i].rightItem))], i + 1)
  {
  }

  lemma RewrittenAll(m: Mode, env: Env, orig: seq<Join>, joins: seq<Join>)
    requires RewrittenUpTo(m, env, orig, joins, |orig|)
    ensures joins == RewriteJoinItems(m, env, orig)
  {
  }

  /** Discovery over one more join. */
  lemma CollectJoinsSnoc(m: Mode, env: Env, joins: seq<Join>, where: Option<Expr>, init: Buckets, i: nat)
    requires i < |joins|
    ensures CollectJoins(m, env, joins[..i + 1], where, init)
      == AddTable(CollectJoins(m, env, joins[..i], where, init), m, env, joins[i].rightItem, GetJoinType(joins[i]), i, where)
  {
    assert joins[..i + 1][..i] == joins[..i];
  }

  /** The select-list half of process*SubQueries. */
  method ProcessSelectItems(m: Mode, env: Env, selectItems: seq<Expr>) returns (items: seq<Expr>)
    ensures items == RewriteItems(m, env, selectItems)
  {
    items := [];
    var k := 0;
    while k < |selectItems|
      invariant 0 <= k <= |selectItems|
      invariant |items| == k
      invariant forall j :: 0 <= j < k ==> items[j] == RewriteItem(m, env, selectItems[j])
    {
      items := items + [RewriteItem(m, env, selectItems[k])];
      k := k + 1;
    }
  }
}
