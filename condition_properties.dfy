/** What the condition injection promises: where predicates land, what the idempotency check
    recognises, and that a second pass adds nothing to WHERE. */
module ConditionProperties {
  import opened Wrappers
  import opened Text
  import opened SqlTree
  import opened TableCache
  import opened ConditionEngine

  // ---------------------------------------------------------------------------------------
  // The idempotency check, restated as a search over the nodes it visits.

  /** The nodes containsDeleteColumn visits: the root and, below AND and OR, both operands. */
  ghost function Visited(e: Expr): set<Expr>
  {
    {e} + (if e.And? || e.Or? then Visited(e.left) + Visited(e.right) else {})
  }

  /** A WHERE already constrains the column exactly when some node reachable through AND and
      OR alone is a binary expression whose left operand is the target column. */
  lemma {:induction false} ContainsColumnIffVisited(e: Expr, column: string, alias: Option<string>, tableName: string)
    ensures ContainsColumn(e, column, alias, tableName) <==>
      exists n :: n in Visited(e) && ConstrainsColumn(n, column, alias, tableName)
  {
    if e.And? || e.Or? {
      ContainsColumnIffVisited(e.left, column, alias, tableName);
      ContainsColumnIffVisited(e.right, column, alias, tableName);
      if ContainsColumn(e, column, alias, tableName) {
        if ConstrainsColumn(e, column, alias, tableName) {
          assert e in Visited(e);
        }
      } else {
        forall n | n in Visited(e)
          ensures !ConstrainsColumn(n, column, alias, tableName)
        {
          if n != e {
            assert n in Visited(e.left) || n in Visited(e.right);
          }
        }
      }
    } else {
      assert Visited(e) == {e};
    }
  }

  // ---------------------------------------------------------------------------------------
  // Conjuncts of AND chains.

  /** The operands of a tree of ANDs, left to right. */
  function Conjuncts(e: Expr): (r: seq<Expr>)
    ensures |r| >= 1
  {
    if e.And? then Conjuncts(e.left) + Conjuncts(e.right) else [e]
  }

  function ConjunctsOpt(w: Option<Expr>): seq<Expr>
  {
    if w.Some? then Conjuncts(w.value) else []
  }

  function ConjunctsOfAll(es: seq<Expr>): seq<Expr>
  {
    if |es| == 0 then [] else ConjunctsOfAll(es[..|es| - 1]) + Conjuncts(es[|es| - 1])
  }

  /** Folding a list into an AND chain keeps every operand, in order. */
  lemma {:induction false} FoldAndConjuncts(es: seq<Expr>)
    requires |es| > 0
    ensures Conjuncts(FoldAnd(es)) == ConjunctsOfAll(es)
    decreases |es|
  {
    if |es| == 1 {
      assert es[..0] == [];
    } else {
      FoldAndConjuncts(es[..|es| - 1]);
    }
  }

  lemma {:induction false} ConjunctsOfInjected(es: seq<Expr>)
    requires AllInjected(es)
    ensures ConjunctsOfAll(es) == es
    decreases |es|
  {
    if |es| > 0 {
      assert es[|es| - 1] in es;
      assert forall c | c in es[..|es| - 1] :: c in es;
      ConjunctsOfInjected(es[..|es| - 1]);
      assert es[..|es| - 1] + [es[|es| - 1]] == es;
    }
  }

  /** After the WHERE update, the conjuncts are the old WHERE's followed by the injected
      predicates in discovery order. */
  lemma MergeWhereConjuncts(where: Option<Expr>, cs: seq<Expr>)
    requires AllInjected(cs)
    ensures ConjunctsOpt(MergeWhere(where, cs)) == ConjunctsOpt(where) + cs
  {
    if cs != [] {
      FoldAndConjuncts(cs);
      ConjunctsOfInjected(cs);
    }
  }

  /** An ON merge without a text guard leaves one expression whose conjuncts are the old ON
      expressions' followed by the new predicates. */
  lemma MergeOnConjuncts(ons: seq<Expr>, c: OnCondition, show: Expr -> string)
    requires c.conditions != [] && AllInjected(c.conditions)
    requires c.guard.None? || !MentionedInOn(ons, c.guard.value, show)
    ensures |MergeOn(ons, c, show)| == 1
    ensures Conjuncts(MergeOn(ons, c, show)[0]) == ConjunctsOfAll(ons) + c.conditions
  {
    FoldAndConjuncts(c.conditions);
    ConjunctsOfInjected(c.conditions);
    if ons != [] {
      FoldAndConjuncts(ons);
    }
  }

  // ---------------------------------------------------------------------------------------
  // The sub-select search.

  /** Nothing for the sub-select search to rewrite. */
  predicate SearchFree(e: Expr)
  {
    match e
    case SubSelect(_) => false
    case Not(x) => SearchFree(x)
    case In(_, right, _) => right.None? || SearchFree(right.value)
    case Exists(x, _) => SearchFree(x)
    case And(l, r) => SearchFree(l) && SearchFree(r)
    case Or(l, r) => SearchFree(l) && SearchFree(r)
    case Binary(_, l, r) => SearchFree(l) && SearchFree(r)
    case _ => true
  }

  lemma {:induction false} SearchFreeUnchanged(m: Mode, env: Env, e: Expr)
    requires SearchFree(e)
    ensures Search(m, env, e) == e
  {
    match e
    case Not(x) => SearchFreeUnchanged(m, env, x);
    case In(_, right, _) => if right.Some? { SearchFreeUnchanged(m, env, right.value); }
    case Exists(x, _) => SearchFreeUnchanged(m, env, x);
    case And(l, r) => SearchFreeUnchanged(m, env, l); SearchFreeUnchanged(m, env, r);
    case Or(l, r) => SearchFreeUnchanged(m, env, l); SearchFreeUnchanged(m, env, r);
    case Binary(_, l, r) => SearchFreeUnchanged(m, env, l); SearchFreeUnchanged(m, env, r);
    case _ =>
  }

  lemma {:induction false} FoldOfInjectedIsSearchFree(cs: seq<Expr>)
    requires |cs| > 0 && AllInjected(cs)
    ensures SearchFree(FoldAnd(cs))
    decreases |cs|
  {
    assert cs[|cs| - 1] in cs;
    if |cs| > 1 {
      assert forall c | c in cs[..|cs| - 1] :: c in cs;
      FoldOfInjectedIsSearchFree(cs[..|cs| - 1]);
    }
  }

  /** The source searches the merged WHERE; the model searches the original WHERE and merges
      after. The results agree. */
  lemma SearchCommutesWithMerge(m: Mode, env: Env, ps: PlainSelect)
    ensures RewritePlain(m, env, ps).where
      == SearchWhere(m, env, MergeWhere(ps.where, Discover(m, env, ps).whereConditions))
  {
    var cs := Discover(m, env, ps).whereConditions;
    if cs != [] {
      FoldOfInjectedIsSearchFree(cs);
      SearchFreeUnchanged(m, env, FoldAnd(cs));
    }
  }

  /** The search leaves AND, OR, binary nodes and columns in place, so the idempotency check
      gives the same answer before and after it. */
  lemma {:induction false} SearchPreservesContainsColumn(m: Mode, env: Env, e: Expr, column: string, alias: Option<string>, tableName: string)
    ensures ContainsColumn(Search(m, env, e), column, alias, tableName) <==> ContainsColumn(e, column, alias, tableName)
  {
    match e
    case And(l, r) =>
      SearchPreservesContainsColumn(m, env, l, column, alias, tableName);
      SearchPreservesContainsColumn(m, env, r, column, alias, tableName);
    case Or(l, r) =>
      SearchPreservesContainsColumn(m, env, l, column, alias, tableName);
      SearchPreservesContainsColumn(m, env, r, column, alias, tableName);
    case _ =>
  }

  // ---------------------------------------------------------------------------------------
  // Injected predicates constrain their own table.

  lemma {:induction false} ConjunctConstrains(e: Expr, c: Expr, column: string, alias: Option<string>, tableName: string)
    requires c in Conjuncts(e) && ConstrainsColumn(c, column, alias, tableName)
    ensures ContainsColumn(e, column, alias, tableName)
  {
    if e.And? {
      if c in Conjuncts(e.left) {
        ConjunctConstrains(e.left, c, column, alias, tableName);
      } else {
        ConjunctConstrains(e.right, c, column, alias, tableName);
      }
    }
  }

  /** Every predicate built for a table is recognised by the idempotency check as
      constraining that table's column. */
  lemma InjectedConstrainsOwnTable(m: Mode, env: Env, t: Table, kind: JoinKind, where: Option<Expr>)
    ensures ActiveDeleteInfo(m, env, t).Some? ==>
      forall c | c in DeletePart(m, env, t, kind, where) ::
        ConstrainsColumn(c, ActiveDeleteInfo(m, env, t).value.delColumn, t.alias, t.name)
    ensures forall c | c in TenantPart(m, env, t, where) :: ConstrainsColumn(c, env.tenantColumn, t.alias, t.name)
  {
  }

  /** Merging keeps every constraint the original WHERE had. */
  lemma MergedWhereKeepsConstraints(m: Mode, env: Env, where: Option<Expr>, cs: seq<Expr>, column: string, alias: Option<string>, tableName: string)
    requires ConditionExists(where, column, alias, tableName)
    ensures ConditionExists(MergeWhere(SearchWhere(m, env, where), cs), column, alias, tableName)
  {
    SearchPreservesContainsColumn(m, env, where.value, column, alias, tableName);
  }

  /** A table all of whose predicates are in the merged WHERE needs nothing from a later pass
      over that WHERE, whatever its join kind then. */
  lemma TableCoveredAfterMerge(m: Mode, env: Env, t: Table, kind: JoinKind, kind2: JoinKind, where: Option<Expr>, cs: seq<Expr>)
    requires AllInjected(cs)
    requires forall c | c in TableConditions(m, env, t, kind, where) :: c in cs
    ensures TableConditions(m, env, t, kind2, MergeWhere(SearchWhere(m, env, where), cs)) == []
  {
    DeleteCoveredAfterMerge(m, env, t, kind, where, cs);
    TenantCoveredAfterMerge(m, env, t, kind, where, cs);
  }

  /** The delete column of a table whose predicates were merged is then found in the WHERE. */
  lemma DeleteCoveredAfterMerge(m: Mode, env: Env, t: Table, kind: JoinKind, where: Option<Expr>, cs: seq<Expr>)
    requires AllInjected(cs)
    requires forall c | c in TableConditions(m, env, t, kind, where) :: c in cs
    ensures ActiveDeleteInfo(m, env, t).Some? ==>
      ConditionExists(MergeWhere(SearchWhere(m, env, where), cs), ActiveDeleteInfo(m, env, t).value.delColumn, t.alias, t.name)
  {
    var info := ActiveDeleteInfo(m, env, t);
    if info.Some? {
      var col := info.value.delColumn;
      if ConditionExists(where, col, t.alias, t.name) {
        MergedWhereKeepsConstraints(m, env, where, cs, col, t.alias, t.name);
      } else {
        var w2 := MergeWhere(SearchWhere(m, env, where), cs);
        MergeWhereConjuncts(SearchWhere(m, env, where), cs);
        InjectedConstrainsOwnTable(m, env, t, kind, where);
        var c := DeletePart(m, env, t, kind, where)[0];
        assert c in TableConditions(m, env, t, kind, where);
        assert c in ConjunctsOpt(w2);
        ConjunctConstrains(w2.value, c, col, t.alias, t.name);
      }
    }
  }

  /** The tenant column of a table whose predicates were merged is then found in the WHERE. */
  lemma TenantCoveredAfterMerge(m: Mode, env: Env, t: Table, kind: JoinKind, where: Option<Expr>, cs: seq<Expr>)
    requires AllInjected(cs)
    requires forall c | c in TableConditions(m, env, t, kind, where) :: c in cs
    ensures TenantActive(m, env, t) ==>
      ConditionExists(MergeWhere(SearchWhere(m, env, where), cs), env.tenantColumn, t.alias, t.name)
  {
    if TenantActive(m, env, t) {
      var col := env.tenantColumn;
      if ConditionExists(where, col, t.alias, t.name) {
        MergedWhereKeepsConstraints(m, env, where, cs, col, t.alias, t.name);
      } else {
        var w2 := MergeWhere(SearchWhere(m, env, where), cs);
        MergeWhereConjuncts(SearchWhere(m, env, where), cs);
        InjectedConstrainsOwnTable(m, env, t, kind, where);
        var c := TenantPart(m, env, t, where)[0];
        assert c in TableConditions(m, env, t, kind, where);
        assert c in ConjunctsOpt(w2);
        ConjunctConstrains(w2.value, c, col, t.alias, t.name);
      }
    }
  }

  // ---------------------------------------------------------------------------------------
  // Discovery.

  /** The join-loop entry join i receives, if any. */
  function OnEntry(m: Mode, env: Env, joins: seq<Join>, i: nat, where: Option<Expr>): Option<OnCondition>
    requires i < |joins|
  {
    var j := joins[i];
    if j.rightItem.TableItem? && GoesToOn(GetJoinType(j)) then
      var cs := TableConditions(m, env, j.rightItem.table, GetJoinType(j), where);
      if cs != [] then Some(OnCondition(i, cs, OnGuard(m, env, j.rightItem.table))) else None
    else None
  }

  predicate IncreasingIndices(pending: seq<OnCondition>)
  {
    forall p, q :: 0 <= p < q < |pending| ==> pending[p].joinIndex < pending[q].joinIndex
  }

  /** One step of the join loop, seen from the joinConditions list. */
  lemma CollectJoinsOnStep(m: Mode, env: Env, joins: seq<Join>, where: Option<Expr>, init: Buckets)
    requires |joins| > 0
    ensures var n := |joins| - 1;
      var e := OnEntry(m, env, joins, n, where);
      CollectJoins(m, env, joins, where, init).joinConditions
        == CollectJoins(m, env, joins[..n], where, init).joinConditions + (if e.Some? then [e.value] else [])
  {
  }

  lemma OnEntryOfPrefix(m: Mode, env: Env, joins: seq<Join>, where: Option<Expr>, n: nat, i: nat)
    requires i < n <= |joins|
    ensures OnEntry(m, env, joins[..n], i, where) == OnEntry(m, env, joins, i, where)
  {
    assert joins[..n][i] == joins[i];
  }

  /** Each joinConditions entry is the one OnEntry describes for its join, and entries come
      in join order. */
  lemma {:induction false} CollectJoinsOnEntriesSound(m: Mode, env: Env, joins: seq<Join>, where: Option<Expr>, init: Buckets)
    requires init.joinConditions == []
    ensures var jc := CollectJoins(m, env, joins, where, init).joinConditions;
      && IncreasingIndices(jc)
      && (forall p :: 0 <= p < |jc| ==> jc[p].joinIndex < |joins| && OnEntry(m, env, joins, jc[p].joinIndex, where) == Some(jc[p]))
    decreases |joins|
  {
    if |joins| > 0 {
      var n := |joins| - 1;
      CollectJoinsOnEntriesSound(m, env, joins[..n], where, init);
      CollectJoinsOnStep(m, env, joins, where, init);
      var before := CollectJoins(m, env, joins[..n], where, init).joinConditions;
      forall p | 0 <= p < |before|
        ensures OnEntry(m, env, joins, before[p].joinIndex, where) == Some(before[p])
      {
        OnEntryOfPrefix(m, env, joins, where, n, before[p].joinIndex);
      }
      var e := OnEntry(m, env, joins, n, where);
      var jc := CollectJoins(m, env, joins, where, init).joinConditions;
      assert jc == before + (if e.Some? then [e.value] else []);
      if e.Some? {
        assert e.value.joinIndex == n;
        assert jc[|jc| - 1] == e.value;
      }
    }
  }

  /** Every join OnEntry assigns an entry has one in joinConditions. */
  lemma {:induction false} CollectJoinsOnEntriesComplete(m: Mode, env: Env, joins: seq<Join>, where: Option<Expr>, init: Buckets, i: nat)
    requires init.joinConditions == []
    requires i < |joins| && OnEntry(m, env, joins, i, where).Some?
    ensures var jc := CollectJoins(m, env, joins, where, init).joinConditions;
      exists p :: 0 <= p < |jc| && jc[p].joinIndex == i
    decreases |joins|
  {
    var n := |joins| - 1;
    CollectJoinsOnStep(m, env, joins, where, init);
    var jc := CollectJoins(m, env, joins, where, init).joinConditions;
    if i < n {
      OnEntryOfPrefix(m, env, joins, where, n, i);
      CollectJoinsOnEntriesComplete(m, env, joins[..n], where, init, i);
      var before := CollectJoins(m, env, joins[..n], where, init).joinConditions;
      var p :| 0 <= p < |before| && before[p].joinIndex == i;
      assert jc[p] == before[p];
    } else {
      assert jc[|jc| - 1].joinIndex == i;
    }
  }

  /** The WHERE bucket keeps what it had and gains the predicates of each WHERE-position join. */
  lemma {:induction false} CollectJoinsWhereAt(m: Mode, env: Env, joins: seq<Join>, where: Option<Expr>, init: Buckets, i: nat)
    requires i < |joins| && joins[i].rightItem.TableItem? && !GoesToOn(GetJoinType(joins[i]))
    ensures forall c | c in TableConditions(m, env, joins[i].rightItem.table, GetJoinType(joins[i]), where) ::
      c in CollectJoins(m, env, joins, where, init).whereConditions
    decreases |joins|
  {
    var n := |joins| - 1;
    if i < n {
      assert joins[..n][i] == joins[i];
      CollectJoinsWhereAt(m, env, joins[..n], where, init, i);
      CollectJoinsWhereGrows(m, env, joins, where, init);
    } else {
      CollectJoinsWhereLast(m, env, joins, where, init);
    }
  }

  lemma CollectJoinsWhereLast(m: Mode, env: Env, joins: seq<Join>, where: Option<Expr>, init: Buckets)
    requires |joins| > 0
    requires var j := joins[|joins| - 1]; j.rightItem.TableItem? && !GoesToOn(GetJoinType(j))
    ensures var j := joins[|joins| - 1];
      forall c | c in TableConditions(m, env, j.rightItem.table, GetJoinType(j), where) ::
        c in CollectJoins(m, env, joins, where, init).whereConditions
  {
    var j := joins[|joins| - 1];
    var before := CollectJoins(m, env, joins[..|joins| - 1], where, init);
    var cs := TableConditions(m, env, j.rightItem.table, GetJoinType(j), where);
    if cs != [] {
      assert CollectJoins(m, env, joins, where, init).whereConditions == before.whereConditions + cs;
    }
  }

  lemma {:induction false} CollectJoinsWhereGrows(m: Mode, env: Env, joins: seq<Join>, where: Option<Expr>, init: Buckets)
    ensures |joins| > 0 ==> forall c | c in CollectJoins(m, env, joins[..|joins| - 1], where, init).whereConditions ::
      c in CollectJoins(m, env, joins, where, init).whereConditions
    ensures forall c | c in init.whereConditions :: c in CollectJoins(m, env, joins, where, init).whereConditions
    decreases |joins|
  {
    if |joins| > 0 {
      CollectJoinsWhereGrows(m, env, joins[..|joins| - 1], where, init);
    }
  }

  /** When no table owes anything to WHERE, the WHERE bucket stays as it was. */
  lemma {:induction false} CollectJoinsWhereUnchanged(m: Mode, env: Env, joins: seq<Join>, where: Option<Expr>, init: Buckets)
    requires forall i :: 0 <= i < |joins| && joins[i].rightItem.TableItem? && !GoesToOn(GetJoinType(joins[i])) ==>
      TableConditions(m, env, joins[i].rightItem.table, GetJoinType(joins[i]), where) == []
    ensures CollectJoins(m, env, joins, where, init).whereConditions == init.whereConditions
    decreases |joins|
  {
    if |joins| > 0 {
      CollectJoinsWhereUnchanged(m, env, joins[..|joins| - 1], where, init);
    }
  }

  /** When no table owes anything at all, discovery finds nothing. */
  lemma {:induction false} CollectJoinsNothingOwed(m: Mode, env: Env, joins: seq<Join>, where: Option<Expr>, init: Buckets)
    requires forall i :: 0 <= i < |joins| && joins[i].rightItem.TableItem? ==>
      TableConditions(m, env, joins[i].rightItem.table, GetJoinType(joins[i]), where) == []
    ensures CollectJoins(m, env, joins, where, init) == init
    decreases |joins|
  {
    if |joins| > 0 {
      CollectJoinsNothingOwed(m, env, joins[..|joins| - 1], where, init);
    }
  }

  // ---------------------------------------------------------------------------------------
  // Placement.

  /** One step of the ON loop. */
  lemma ApplyOnStep(joins: seq<Join>, pending: seq<OnCondition>, show: Expr -> string, i: nat)
    requires WellFormedOn(pending) && |pending| > 0 && i < |joins|
    ensures WellFormedOn(pending[..|pending| - 1])
    ensures var c := pending[|pending| - 1];
      var before := ApplyOn(joins, pending[..|pending| - 1], show)[i];
      ApplyOn(joins, pending, show)[i]
        == if c.joinIndex == i then before.(onExpressions := MergeOn(before.onExpressions, c, show)) else before
  {
    ApplyOnUnfold(joins, pending, show);
  }

  lemma ApplyOnUnfold(joins: seq<Join>, pending: seq<OnCondition>, show: Expr -> string)
    requires WellFormedOn(pending) && |pending| > 0
    ensures WellFormedOn(pending[..|pending| - 1])
    ensures var js := ApplyOn(joins, pending[..|pending| - 1], show);
      var c := pending[|pending| - 1];
      ApplyOn(joins, pending, show)
        == if c.joinIndex < |js| then js[c.joinIndex := js[c.joinIndex].(onExpressions := MergeOn(js[c.joinIndex].onExpressions, c, show))]
           else js
  {
    WellFormedOnPrefix(pending);
  }

  lemma WellFormedOnPrefix(pending: seq<OnCondition>)
    requires WellFormedOn(pending) && |pending| > 0
    ensures WellFormedOn(pending[..|pending| - 1])
  {
    var n := |pending| - 1;
    forall c | c in pending[..n]
      ensures c in pending
    {
      var k :| 0 <= k < n && pending[..n][k] == c;
      assert pending[k] == c;
    }
  }

  /** A join without an entry keeps its ON expressions. */
  lemma {:induction false} ApplyOnUntouched(joins: seq<Join>, pending: seq<OnCondition>, show: Expr -> string, i: nat)
    requires WellFormedOn(pending) && i < |joins|
    requires forall p :: 0 <= p < |pending| ==> pending[p].joinIndex != i
    ensures ApplyOn(joins, pending, show)[i] == joins[i]
    decreases |pending|
  {
    if |pending| > 0 {
      ApplyOnStep(joins, pending, show, i);
      ApplyOnUntouched(joins, pending[..|pending| - 1], show, i);
    }
  }

  /** A join with an entry gets that entry merged into its original ON expressions. */
  lemma {:induction false} ApplyOnMerged(joins: seq<Join>, pending: seq<OnCondition>, show: Expr -> string, i: nat, p: nat)
    requires WellFormedOn(pending) && IncreasingIndices(pending) && i < |joins|
    requires p < |pending| && pending[p].joinIndex == i
    ensures ApplyOn(joins, pending, show)[i].onExpressions == MergeOn(joins[i].onExpressions, pending[p], show)
    decreases |pending|
  {
    var n := |pending| - 1;
    ApplyOnStep(joins, pending, show, i);
    if p == n {
      ApplyOnUntouched(joins, pending[..n], show, i);
    } else {
      ApplyOnMerged(joins, pending[..n], show, i, p);
    }
  }

  /** The WHERE after a pass: its old conjuncts (searched for sub-selects) followed by every
      predicate owed to WHERE, in discovery order. */
  lemma WherePlacement(m: Mode, env: Env, ps: PlainSelect)
    ensures ConjunctsOpt(RewritePlain(m, env, ps).where)
      == ConjunctsOpt(SearchWhere(m, env, ps.where)) + Discover(m, env, ps).whereConditions
  {
    MergeWhereConjuncts(SearchWhere(m, env, ps.where), Discover(m, env, ps).whereConditions);
  }

  /** The FROM table's predicates open the WHERE bucket; each INNER or FULL join table's
      predicates are in it too. */
  lemma FromAndInnerJoinsGoToWhere(m: Mode, env: Env, ps: PlainSelect)
    ensures ps.fromItem.TableItem? ==>
      var cs := TableConditions(m, env, ps.fromItem.table, FromTable, ps.where);
      |cs| <= |Discover(m, env, ps).whereConditions| && Discover(m, env, ps).whereConditions[..|cs|] == cs
    ensures forall i :: 0 <= i < |ps.joins| && ps.joins[i].rightItem.TableItem? && !GoesToOn(GetJoinType(ps.joins[i])) ==>
      forall c | c in TableConditions(m, env, ps.joins[i].rightItem.table, GetJoinType(ps.joins[i]), ps.where) ::
        c in Discover(m, env, ps).whereConditions
  {
    var start := AddTable(Buckets([], []), m, env, ps.fromItem, FromTable, 0, ps.where);
    CollectJoinsWherePrefix(m, env, ps.joins, ps.where, start);
    forall i | 0 <= i < |ps.joins| && ps.joins[i].rightItem.TableItem? && !GoesToOn(GetJoinType(ps.joins[i]))
      ensures forall c | c in TableConditions(m, env, ps.joins[i].rightItem.table, GetJoinType(ps.joins[i]), ps.where) ::
        c in Discover(m, env, ps).whereConditions
    {
      CollectJoinsWhereAt(m, env, ps.joins, ps.where, start, i);
    }
  }

  lemma {:induction false} CollectJoinsWherePrefix(m: Mode, env: Env, joins: seq<Join>, where: Option<Expr>, init: Buckets)
    ensures var w := CollectJoins(m, env, joins, where, init).whereConditions;
      |init.whereConditions| <= |w| && w[..|init.whereConditions|] == init.whereConditions
    decreases |joins|
  {
    if |joins| > 0 {
      CollectJoinsWherePrefix(m, env, joins[..|joins| - 1], where, init);
    }
  }

  /** A LEFT or RIGHT join table that owes predicates gets them merged into its own join's
      ON expressions; every other join keeps its ON expressions. */
  lemma OnPlacement(m: Mode, env: Env, ps: PlainSelect, i: nat)
    requires i < |ps.joins|
    ensures OnEntry(m, env, ps.joins, i, ps.where).Some? ==>
      RewritePlain(m, env, ps).joins[i].onExpressions
        == MergeOn(ps.joins[i].onExpressions, OnEntry(m, env, ps.joins, i, ps.where).value, env.show)
    ensures OnEntry(m, env, ps.joins, i, ps.where).None? ==>
      RewritePlain(m, env, ps).joins[i].onExpressions == ps.joins[i].onExpressions
  {
    var start := AddTable(Buckets([], []), m, env, ps.fromItem, FromTable, 0, ps.where);
    var jc := Discover(m, env, ps).joinConditions;
    CollectJoinsOnEntriesSound(m, env, ps.joins, ps.where, start);
    var rewritten := RewriteJoinItems(m, env, ps.joins);
    assert RewritePlain(m, env, ps).joins == ApplyOn(rewritten, jc, env.show);
    if OnEntry(m, env, ps.joins, i, ps.where).Some? {
      CollectJoinsOnEntriesComplete(m, env, ps.joins, ps.where, start, i);
      var p :| 0 <= p < |jc| && jc[p].joinIndex == i;
      ApplyOnMerged(rewritten, jc, env.show, i, p);
    } else {
      ApplyOnUntouched(rewritten, jc, env.show, i);
    }
  }

  // ---------------------------------------------------------------------------------------
  // A second pass.

  /** After any pass, a second pass of the same kind owes nothing to WHERE: every table
      whose predicates went to WHERE is now recognised as constrained. */
  lemma SecondPassOwesNothingToWhere(m: Mode, env: Env, ps: PlainSelect)
    ensures Discover(m, env, RewritePlain(m, env, ps)).whereConditions == []
  {
    var r := RewritePlain(m, env, ps);
    var b := Discover(m, env, ps);
    assert r.where == MergeWhere(SearchWhere(m, env, ps.where), b.whereConditions);
    FromAndInnerJoinsGoToWhere(m, env, ps);
    if ps.fromItem.TableItem? {
      var cs := TableConditions(m, env, ps.fromItem.table, FromTable, ps.where);
      forall c | c in cs
        ensures c in b.whereConditions
      {
        var k :| 0 <= k < |cs| && cs[k] == c;
        assert b.whereConditions[k] == c;
      }
      TableCoveredAfterMerge(m, env, ps.fromItem.table, FromTable, FromTable, ps.where, b.whereConditions);
    }
    forall i | 0 <= i < |r.joins| && r.joins[i].rightItem.TableItem? && !GoesToOn(GetJoinType(r.joins[i]))
      ensures TableConditions(m, env, r.joins[i].rightItem.table, GetJoinType(r.joins[i]), r.where) == []
    {
      assert r.joins[i].rightItem == ps.joins[i].rightItem;
      assert GetJoinType(r.joins[i]) == GetJoinType(ps.joins[i]);
      TableCoveredAfterMerge(m, env, ps.joins[i].rightItem.table, GetJoinType(ps.joins[i]), GetJoinType(ps.joins[i]), ps.where, b.whereConditions);
    }
    var start := AddTable(Buckets([], []), m, env, r.fromItem, FromTable, 0, r.where);
    assert start.whereConditions == [];
    CollectJoinsWhereUnchanged(m, env, r.joins, r.where, start);
  }

  /** A plain select with no sub-selects anywhere the search looks. */
  predicate Flat(ps: PlainSelect)
  {
    && (forall i :: 0 <= i < |ps.selectItems| ==> SearchFree(ps.selectItems[i]))
    && !ps.fromItem.SubQuery?
    && (forall i :: 0 <= i < |ps.joins| ==> !ps.joins[i].rightItem.SubQuery?)
    && (ps.where.Some? ==> SearchFree(ps.where.value))
  }

  /** On a select without sub-selects, a pass only merges the WHERE predicates: everything
      else is kept, and the result has no sub-selects either. */
  lemma FlatPassKeepsShape(m: Mode, env: Env, ps: PlainSelect)
    requires Flat(ps)
    requires Discover(m, env, ps).joinConditions == []
    ensures var r := RewritePlain(m, env, ps);
      && r.selectItems == ps.selectItems && r.joins == ps.joins && r.fromItem == ps.fromItem
      && r.where == MergeWhere(ps.where, Discover(m, env, ps).whereConditions)
      && Flat(r)
  {
    var r := RewritePlain(m, env, ps);
    var b := Discover(m, env, ps);
    SearchFreeUnchanged(m, env, if ps.where.Some? then ps.where.value else Other(""));
    assert SearchWhere(m, env, ps.where) == ps.where;
    assert RewriteJoinItems(m, env, ps.joins) == ps.joins;
    forall i | 0 <= i < |ps.selectItems|
      ensures RewriteItem(m, env, ps.selectItems[i]) == ps.selectItems[i]
    {
      SearchFreeUnchanged(m, env, ps.selectItems[i]);
    }
    assert r.selectItems == RewriteItems(m, env, ps.selectItems);
    assert r.selectItems == ps.selectItems;
    if b.whereConditions != [] {
      FoldOfInjectedIsSearchFree(b.whereConditions);
    }
  }

  /** After such a pass no table owes anything. */
  lemma FlatPassOwesNothing(m: Mode, env: Env, ps: PlainSelect)
    requires Flat(ps)
    requires Discover(m, env, ps).joinConditions == []
    ensures Discover(m, env, RewritePlain(m, env, ps)) == Buckets([], [])
  {
    var r := RewritePlain(m, env, ps);
    FlatPassKeepsShape(m, env, ps);
    forall i | 0 <= i < |r.joins| && r.joins[i].rightItem.TableItem?
      ensures TableConditions(m, env, r.joins[i].rightItem.table, GetJoinType(r.joins[i]), r.where) == []
    {
      FlatJoinCovered(m, env, ps, i);
    }
    FlatFromCovered(m, env, ps);
    CollectJoinsNothingOwed(m, env, r.joins, r.where, Buckets([], []));
  }

  /** After a pass over a flat select, the FROM table owes nothing more. */
  lemma FlatFromCovered(m: Mode, env: Env, ps: PlainSelect)
    requires Flat(ps)
    requires Discover(m, env, ps).joinConditions == []
    ensures var r := RewritePlain(m, env, ps);
      AddTable(Buckets([], []), m, env, r.fromItem, FromTable, 0, r.where) == Buckets([], [])
  {
    var r := RewritePlain(m, env, ps);
    var b := Discover(m, env, ps);
    FlatPassKeepsShape(m, env, ps);
    FromAndInnerJoinsGoToWhere(m, env, ps);
    if ps.fromItem.TableItem? {
      var cs := TableConditions(m, env, ps.fromItem.table, FromTable, ps.where);
      forall c | c in cs
        ensures c in b.whereConditions
      {
        var k :| 0 <= k < |cs| && cs[k] == c;
        assert b.whereConditions[k] == c;
      }
      TableCoveredAfterMerge(m, env, ps.fromItem.table, FromTable, FromTable, ps.where, b.whereConditions);
    }
  }

  /** After a pass over a flat select, no joined table owes anything more. */
  lemma FlatJoinCovered(m: Mode, env: Env, ps: PlainSelect, i: nat)
    requires Flat(ps)
    requires Discover(m, env, ps).joinConditions == []
    requires i < |ps.joins| && ps.joins[i].rightItem.TableItem?
    ensures TableConditions(m, env, ps.joins[i].rightItem.table, GetJoinType(ps.joins[i]), RewritePlain(m, env, ps).where) == []
  {
    var b := Discover(m, env, ps);
    FlatPassKeepsShape(m, env, ps);
    FromAndInnerJoinsGoToWhere(m, env, ps);
    var start := AddTable(Buckets([], []), m, env, ps.fromItem, FromTable, 0, ps.where);
    var k := GetJoinType(ps.joins[i]);
    if GoesToOn(k) && OnEntry(m, env, ps.joins, i, ps.where).Some? {
      CollectJoinsOnEntriesComplete(m, env, ps.joins, ps.where, start, i);
      assert false;
    }
    TableCoveredAfterMerge(m, env, ps.joins[i].rightItem.table, k, k, ps.where, b.whereConditions);
  }

  /** A select without sub-selects in which no table owes anything is left as it is. */
  lemma FlatOwingNothingIsFixed(m: Mode, env: Env, q: PlainSelect)
    requires Flat(q)
    requires Discover(m, env, q) == Buckets([], [])
    ensures RewritePlain(m, env, q) == q
  {
    SearchFreeUnchanged(m, env, if q.where.Some? then q.where.value else Other(""));
    forall i | 0 <= i < |q.selectItems|
      ensures RewriteItem(m, env, q.selectItems[i]) == q.selectItems[i]
    {
      SearchFreeUnchanged(m, env, q.selectItems[i]);
    }
  }

  /** For a select without sub-selects whose LEFT/RIGHT join tables owe nothing, running the
      same pass twice gives the tree one pass gives. */
  lemma FlatRewriteIsIdempotent(m: Mode, env: Env, ps: PlainSelect)
    requires Flat(ps)
    requires Discover(m, env, ps).joinConditions == []
    ensures RewritePlain(m, env, RewritePlain(m, env, ps)) == RewritePlain(m, env, ps)
  {
    FlatPassKeepsShape(m, env, ps);
    FlatPassOwesNothing(m, env, ps);
    FlatOwingNothingIsFixed(m, env, RewritePlain(m, env, ps));
  }

  /** A single-table select without WHERE gets exactly the table's own predicates, folded,
      as its WHERE; for a tenant table in the tenant-only pass that is one placeholder. */
  lemma SingleTableWhere(m: Mode, env: Env, ps: PlainSelect)
    requires ps.fromItem.TableItem? && ps.joins == [] && ps.where.None?
    ensures var cs := TableConditions(m, env, ps.fromItem.table, FromTable, None);
      RewritePlain(m, env, ps).where == (if cs == [] then None else Some(FoldAnd(cs)))
    ensures m == TenantOnly && env.registry.HasTenantColumn(ps.fromItem.table.name) ==>
      RewritePlain(m, env, ps).where == Some(TenantCondition(env.tenantColumn, TableRef(ps.fromItem.table)))
  {
    var cs := TableConditions(m, env, ps.fromItem.table, FromTable, None);
    assert Discover(m, env, ps) == AddTable(Buckets([], []), m, env, ps.fromItem, FromTable, 0, None);
    assert Discover(m, env, ps).whereConditions == cs;
  }

  /** A branch the tenant-only pass treats on its own: a plain select of one tenant table,
      without joins, whose WHERE does not already constrain the tenant column. */
  predicate SingleTenantTable(env: Env, b: Select)
  {
    && b.Plain?
    && b.plain.fromItem.TableItem?
    && b.plain.joins == []
    && env.registry.HasTenantColumn(b.plain.fromItem.table.name)
    && !ConditionExists(b.plain.where, env.tenantColumn, b.plain.fromItem.table.alias, b.plain.fromItem.table.name)
  }

  /** Such a select gets its WHERE, searched for sub-selects, AND the table's one tenant
      predicate; without a WHERE, that predicate alone. */
  lemma SingleTenantTableWhere(env: Env, ps: PlainSelect)
    requires SingleTenantTable(env, Plain(ps))
    ensures var tc := TenantCondition(env.tenantColumn, TableRef(ps.fromItem.table));
      RewritePlain(TenantOnly, env, ps).where
        == if ps.where.Some? then Some(And(Search(TenantOnly, env, ps.where.value), tc)) else Some(tc)
  {
    var t := ps.fromItem.table;
    assert TableConditions(TenantOnly, env, t, FromTable, ps.where) == [TenantCondition(env.tenantColumn, TableRef(t))];
    assert Discover(TenantOnly, env, ps).whereConditions == [TenantCondition(env.tenantColumn, TableRef(t))];
  }

  /** A branch after the tenant-only pass: its conjuncts are those of its WHERE, searched for
      sub-selects, and then exactly one more, its table's tenant predicate; a branch without
      a WHERE has that predicate as its whole WHERE. */
  predicate GainsOneTenantPredicate(env: Env, b: Select, rb: Select)
  {
    && b.Plain? && b.plain.fromItem.TableItem? && rb.Plain?
    && var tc := TenantCondition(env.tenantColumn, TableRef(b.plain.fromItem.table));
      && ConjunctsOpt(rb.plain.where) == ConjunctsOpt(SearchWhere(TenantOnly, env, b.plain.where)) + [tc]
      && (b.plain.where.None? ==> rb.plain.where == Some(tc))
  }

  /** processTenantSelect on a UNION (or any set operation) of such branches: every branch
      gains its own tenant predicate, once. */
  lemma SetOperationBranchesGetOneTenantPredicate(env: Env, s: Select)
    requires s.SetOperationList?
    requires forall i :: 0 <= i < |s.selects| ==> SingleTenantTable(env, s.selects[i])
    ensures var r := RewriteSelect(TenantOnly, env, s);
      && r.SetOperationList? && r.operators == s.operators && |r.selects| == |s.selects|
      && forall i :: 0 <= i < |s.selects| ==> GainsOneTenantPredicate(env, s.selects[i], r.selects[i])
  {
    var r := RewriteSelect(TenantOnly, env, s);
    forall i | 0 <= i < |s.selects|
      ensures GainsOneTenantPredicate(env, s.selects[i], r.selects[i])
    {
      assert SingleTenantTable(env, s.selects[i]);
      var b := s.selects[i].plain;
      assert s.selects[i] == Plain(b);
      SingleTenantTableWhere(env, b);
      var tc := TenantCondition(env.tenantColumn, TableRef(b.fromItem.table));
      assert Conjuncts(tc) == [tc];
    }
  }
}
