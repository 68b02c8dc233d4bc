/** The lambda query API: LambdaUtils' getter-name and column-name rules, and the
    LambdaQueryWrapper builder that collects conditions, named parameters, selected columns
    and ORDER BY items and prints them as one SELECT. A getter method reference such as
    User::getName is represented by the name of the method it implements. */
module Lambda {
  import opened Wrappers
  import opened Text
  import opened Values
  import opened Metadata
  import opened TableCache
  import opened CommonUtils

  /** getFieldName: "getName" gives "name", "isActive" gives "active"; a name that is only
      the prefix, or has neither prefix, is its own field name. */
  function FieldName(methodName: string): (r: string)
    ensures |r| <= |methodName|
  {
    if StartsWith(methodName, "get") && |methodName| > 3 then [ToLowerChar(methodName[3])] + methodName[4..]
    else if StartsWith(methodName, "is") && |methodName| > 2 then [ToLowerChar(methodName[2])] + methodName[3..]
    else methodName
  }

  /** The JavaBeans getter name of a field: "get" and the field with its first letter in
      upper case; "is" instead of "get" for a boolean field. */
  function GetterName(field: string, isBoolean: bool): (r: string)
    requires |field| > 0
    ensures StartsWith(r, if isBoolean then "is" else "get")
    ensures |r| == |field| + (if isBoolean then 2 else 3)
  {
    StartsWithConcat3(if isBoolean then "is" else "get", [ToUpperChar(field[0])], field[1..]);
    (if isBoolean then "is" else "get") + [ToUpperChar(field[0])] + field[1..]
  }

  /** getFieldName undoes the getter naming for every field whose name starts with anything
      but an upper-case letter. */
  lemma FieldNameOfGetter(field: string, isBoolean: bool)
    requires |field| > 0 && !IsUpper(field[0])
    ensures FieldName(GetterName(field, isBoolean)) == field
  {
    var m := GetterName(field, isBoolean);
    if isBoolean {
      assert m[..3] != "get" by { assert m[0] == 'i'; }
      assert m[..2] == "is";
      assert m[3..] == field[1..];
    } else {
      assert m[..3] == "get";
      assert m[4..] == field[1..];
    }
    assert [field[0]] + field[1..] == field;
  }

  /** A @MyField annotation that names a column. */
  predicate NamesColumn(f: FieldDecl)
  {
    f.annotation.Some? && f.annotation.value.value != ""
  }

  /** getColumnName for a field name and the entity's field list (None when TableInfo
      cannot be had): the first field of that name decides; its non-empty @MyField value
      wins, and otherwise, and for a field not found, the name is converted to snake_case. */
  function ColumnName(fieldName: string, fields: Option<seq<FieldDecl>>): (r: string)
    ensures fields.Some? && FindField(fields.value, fieldName).Some?
      && NamesColumn(fields.value[FindField(fields.value, fieldName).value])
      ==> r == fields.value[FindField(fields.value, fieldName).value].annotation.value.value
    ensures r != ToUnderscore(fieldName) ==> fields.Some? && FindField(fields.value, fieldName).Some?
  {
    if fields.None? then ToUnderscore(fieldName)
    else match FindField(fields.value, fieldName)
      case None => ToUnderscore(fieldName)
      case Some(i) =>
        var f := fields.value[i];
        if NamesColumn(f) then f.annotation.value.value else ToUnderscore(fieldName)
  }

  /** Fields declared after the first one with the name make no difference to its column. */
  lemma {:induction false} FirstFieldDecides(fieldName: string, before: seq<FieldDecl>, f: FieldDecl, after: seq<FieldDecl>)
    requires f.name == fieldName
    requires forall j :: 0 <= j < |before| ==> before[j].name != fieldName
    ensures ColumnName(fieldName, Some(before + [f] + after))
      == (if NamesColumn(f) then f.annotation.value.value else ToUnderscore(fieldName))
  {
    var all := before + [f] + after;
    assert all[|before|] == f;
    var i := FindField(all, fieldName).value;
  }

  /** Without a column named by annotation, the column of a camelCase field without
      underscores converts back to the field name, as the row mapper and the DAO expect. */
  lemma ColumnNameRoundTrip(fieldName: string, fields: Option<seq<FieldDecl>>)
    requires forall i :: 0 <= i < |fieldName| ==> fieldName[i] != '_'
    requires fields.None? || FindField(fields.value, fieldName).None?
      || !NamesColumn(fields.value[FindField(fields.value, fieldName).value])
    ensures FromUnderscore(ColumnName(fieldName, fields)) == Success(fieldName)
  {
    CamelRoundTrip(fieldName);
  }

  /** nextParam's names: "lwp" and the counter. */
  function ParamName(i: nat): (r: string)
    ensures StartsWith(r, "lwp") && |r| > 3
    ensures AllDigits(r[3..])
  {
    "lwp" + NatToString(i)
  }

  /** Different counters give different names, so no parameter overwrites another. */
  lemma ParamNamesDistinct(i: nat, j: nat)
    requires i != j
    ensures ParamName(i) != ParamName(j)
  {
    if ParamName(i) == ParamName(j) {
      assert ParamName(i)[3..] == NatToString(i);
      assert ParamName(j)[3..] == NatToString(j);
      NatToStringInjective(i, j);
    }
  }

  /** The LinkedHashMap of parameters, filled by puts in order. */
  function ParamMap(ps: seq<(string, Value)>): map<string, Value>
  {
    if |ps| == 0 then map[] else ParamMap(ps[..|ps| - 1])[ps[|ps| - 1].0 := ps[|ps| - 1].1]
  }

  /** The map holds exactly the names put. */
  lemma {:induction false} ParamMapKeys(ps: seq<(string, Value)>)
    ensures forall k :: k in ParamMap(ps) <==> exists i :: 0 <= i < |ps| && ps[i].0 == k
  {
    if |ps| > 0 {
      var init := ps[..|ps| - 1];
      ParamMapKeys(init);
      assert ParamMap(ps) == ParamMap(init)[ps[|ps| - 1].0 := ps[|ps| - 1].1];
      forall k | k in ParamMap(ps)
        ensures exists i :: 0 <= i < |ps| && ps[i].0 == k
      {
        if k != ps[|ps| - 1].0 {
          assert k in ParamMap(init);
          var i :| 0 <= i < |init| && init[i].0 == k;
          assert ps[i].0 == k;
        }
      }
      forall i | 0 <= i < |ps|
        ensures ps[i].0 in ParamMap(ps)
      {
        if i < |init| {
          assert init[i].0 == ps[i].0;
        }
      }
    }
  }

  /** With distinct names, each name put leads to its own value. */
  lemma {:induction false} ParamMapValues(ps: seq<(string, Value)>)
    requires forall i, j :: 0 <= i < j < |ps| ==> ps[i].0 != ps[j].0
    ensures forall i :: 0 <= i < |ps| ==> ps[i].0 in ParamMap(ps) && ParamMap(ps)[ps[i].0] == ps[i].1
  {
    if |ps| > 0 {
      var init := ps[..|ps| - 1];
      ParamMapValues(init);
      forall i | 0 <= i < |ps|
        ensures ps[i].0 in ParamMap(ps) && ParamMap(ps)[ps[i].0] == ps[i].1
      {
        if i < |init| {
          assert init[i] == ps[i];
        }
      }
    }
  }

  /** With distinct names, the map holds exactly the names put, each with its own value. */
  lemma ParamMapLookup(ps: seq<(string, Value)>)
    requires forall i, j :: 0 <= i < j < |ps| ==> ps[i].0 != ps[j].0
    ensures ParamMap(ps).Keys == set i | 0 <= i < |ps| :: ps[i].0
    ensures forall i :: 0 <= i < |ps| ==> ParamMap(ps)[ps[i].0] == ps[i].1
  {
    ParamMapKeys(ps);
    ParamMapValues(ps);
  }

  /** The map of numbered parameters holds lwp0 .. lwp(n-1), each with its own value. */
  lemma NumberedParamMap(params: seq<(string, Value)>)
    requires Numbered(params)
    ensures ParamMap(params).Keys == set i | 0 <= i < |params| :: ParamName(i)
    ensures forall i :: 0 <= i < |params| ==> ParamMap(params)[ParamName(i)] == params[i].1
  {
    forall i, j | 0 <= i < j < |params|
      ensures params[i].0 != params[j].0
    {
      ParamNamesDistinct(i, j);
    }
    ParamMapLookup(params);
    forall i | 0 <= i < |params|
      ensures params[i].0 == ParamName(i)
    {
    }
    assert (set i | 0 <= i < |params| :: params[i].0) == set i | 0 <= i < |params| :: ParamName(i);
  }

  /** The select list: `*` when no column was selected. */
  function SelectList(selectColumns: seq<string>): string
  {
    if |selectColumns| == 0 then "*" else Join(", ", selectColumns)
  }

  /** The WHERE clause: absent without conditions, else the conditions joined by AND. */
  function WhereClause(conditions: seq<string>): string
  {
    if |conditions| == 0 then "" else " WHERE " + Join(" AND ", conditions)
  }

  /** The ORDER BY clause: absent without items. */
  function OrderByClause(orderBy: seq<string>): string
  {
    if |orderBy| == 0 then "" else " ORDER BY " + Join(", ", orderBy)
  }

  /** The SELECT buildSql prints for a known table name. */
  function QuerySql(tableName: string, selectColumns: seq<string>, conditions: seq<string>, orderBy: seq<string>): (r: string)
    ensures EndsWith(r, OrderByClause(orderBy))
    ensures conditions == [] && orderBy == [] ==> EndsWith(r, " FROM " + tableName)
  {
    EndsWithConcat("SELECT " + SelectList(selectColumns) + " FROM " + tableName + WhereClause(conditions), OrderByClause(orderBy));
    EndsWithConcat("SELECT " + SelectList(selectColumns), " FROM " + tableName);
    assert conditions == [] && orderBy == [] ==>
      "SELECT " + SelectList(selectColumns) + " FROM " + tableName + WhereClause(conditions) + OrderByClause(orderBy)
      == "SELECT " + SelectList(selectColumns) + (" FROM " + tableName);
    "SELECT " + SelectList(selectColumns) + " FROM " + tableName + WhereClause(conditions) + OrderByClause(orderBy)
  }

  /** Each clause carries its parts. */
  lemma ClauseCarriesParts(prefix: string, sep: string, parts: seq<string>, k: nat)
    requires k < |parts|
    ensures Contains(prefix + Join(sep, parts), parts[k])
  {
    JoinContains(sep, parts, k);
    ContainsExtend(prefix, Join(sep, parts), "", parts[k]);
    assert prefix + Join(sep, parts) + "" == prefix + Join(sep, parts);
  }

  lemma HeadLayout(sel: string, tableName: string, wh: string, ob: string)
    ensures StartsWith("SELECT " + sel + " FROM " + tableName + wh + ob, "SELECT ")
    ensures Contains("SELECT " + sel + " FROM " + tableName + wh + ob, " FROM " + tableName)
  {
    var r := "SELECT " + sel + " FROM " + tableName + wh + ob;
    assert r == "SELECT " + (sel + " FROM " + tableName + wh + ob);
    StartsWithConcat("SELECT ", sel + " FROM " + tableName + wh + ob);
    assert r == "SELECT " + sel + (" FROM " + tableName) + (wh + ob);
    ContainsMiddle("SELECT " + sel, " FROM " + tableName, wh + ob);
  }

  lemma QueryHead(tableName: string, selectColumns: seq<string>, conditions: seq<string>, orderBy: seq<string>)
    ensures StartsWith(QuerySql(tableName, selectColumns, conditions, orderBy), "SELECT ")
    ensures Contains(QuerySql(tableName, selectColumns, conditions, orderBy), " FROM " + tableName)
  {
    HeadLayout(SelectList(selectColumns), tableName, WhereClause(conditions), OrderByClause(orderBy));
  }

  lemma QueryHasCondition(tableName: string, selectColumns: seq<string>, conditions: seq<string>, orderBy: seq<string>, k: nat)
    requires k < |conditions|
    ensures Contains(QuerySql(tableName, selectColumns, conditions, orderBy), conditions[k])
  {
    var head := "SELECT " + SelectList(selectColumns) + " FROM " + tableName;
    ClauseCarriesParts(" WHERE ", " AND ", conditions, k);
    ContainsExtend(head, WhereClause(conditions), OrderByClause(orderBy), conditions[k]);
  }

  lemma QueryHasColumn(tableName: string, selectColumns: seq<string>, conditions: seq<string>, orderBy: seq<string>, k: nat)
    requires k < |selectColumns|
    ensures Contains(QuerySql(tableName, selectColumns, conditions, orderBy), selectColumns[k])
  {
    var sel := SelectList(selectColumns);
    JoinContains(", ", selectColumns, k);
    assert sel == Join(", ", selectColumns);
    ContainsPrepend("SELECT ", sel, selectColumns[k]);
    ContainsAppend("SELECT " + sel, " FROM ", selectColumns[k]);
    ContainsAppend("SELECT " + sel + " FROM ", tableName, selectColumns[k]);
    ContainsAppend("SELECT " + sel + " FROM " + tableName, WhereClause(conditions), selectColumns[k]);
    ContainsAppend("SELECT " + sel + " FROM " + tableName + WhereClause(conditions), OrderByClause(orderBy), selectColumns[k]);
  }

  lemma QueryHasOrderItem(tableName: string, selectColumns: seq<string>, conditions: seq<string>, orderBy: seq<string>, k: nat)
    requires k < |orderBy|
    ensures Contains(QuerySql(tableName, selectColumns, conditions, orderBy), orderBy[k])
  {
    var head := "SELECT " + SelectList(selectColumns) + " FROM " + tableName + WhereClause(conditions);
    ClauseCarriesParts(" ORDER BY ", ", ", orderBy, k);
    ContainsExtend(head, OrderByClause(orderBy), "", orderBy[k]);
    assert head + OrderByClause(orderBy) + "" == QuerySql(tableName, selectColumns, conditions, orderBy);
  }

  /** The printed query starts with SELECT, names the table, and carries every condition,
      selected column and ORDER BY item. */
  lemma QueryCarriesEveryPart(tableName: string, selectColumns: seq<string>, conditions: seq<string>, orderBy: seq<string>)
    ensures var r := QuerySql(tableName, selectColumns, conditions, orderBy);
      && StartsWith(r, "SELECT ")
      && Contains(r, " FROM " + tableName)
      && (forall k :: 0 <= k < |conditions| ==> Contains(r, conditions[k]))
      && (forall k :: 0 <= k < |selectColumns| ==> Contains(r, selectColumns[k]))
      && (forall k :: 0 <= k < |orderBy| ==> Contains(r, orderBy[k]))
  {
    QueryHead(tableName, selectColumns, conditions, orderBy);
    forall k | 0 <= k < |conditions| {
      QueryHasCondition(tableName, selectColumns, conditions, orderBy, k);
    }
    forall k | 0 <= k < |selectColumns| {
      QueryHasColumn(tableName, selectColumns, conditions, orderBy, k);
    }
    forall k | 0 <= k < |orderBy| {
      QueryHasOrderItem(tableName, selectColumns, conditions, orderBy, k);
    }
  }

  /** `"%" + val + "%"` and friends, where a null string prints as "null". */
  function TextOf(val: Option<string>): string
  {
    if val.None? then "null" else val.value
  }

  /** The parameters are lwp0, lwp1, ... in order. */
  predicate Numbered(params: seq<(string, Value)>)
  {
    forall i :: 0 <= i < |params| ==> params[i].0 == ParamName(i)
  }

  /** Each parameter has an owning condition holding its placeholder. */
  predicate Bound(params: seq<(string, Value)>, owner: seq<nat>, conditions: seq<string>)
  {
    && |owner| == |params|
    && (forall i :: 0 <= i < |owner| ==> owner[i] < |conditions| && Contains(conditions[owner[i]], ":" + params[i].0))
  }

  /** A new condition keeps every placeholder owned, and owns the parameters made for it. */
  lemma BoundAfterCondition(params: seq<(string, Value)>, owner: seq<nat>, conditions: seq<string>,
                            cond: string, added: seq<(string, Value)>, owners: seq<nat>)
    requires Bound(params, owner, conditions)
    requires |owners| == |added|
    requires forall k :: 0 <= k < |added| ==> owners[k] == |conditions| && Contains(cond, ":" + added[k].0)
    ensures Bound(params + added, owner + owners, conditions + [cond])
  {
    var owner' := owner + owners;
    var params' := params + added;
    var conditions' := conditions + [cond];
    forall i | 0 <= i < |owner'|
      ensures owner'[i] < |conditions'| && Contains(conditions'[owner'[i]], ":" + params'[i].0)
    {
      if i < |owner| {
        assert owner'[i] == owner[i] && params'[i] == params[i] && conditions'[owner[i]] == conditions[owner[i]];
      } else {
        assert owner'[i] == |conditions| && params'[i] == added[i - |owner|];
      }
    }
  }

  /** The parameters made next are numbered on from the counter. */
  lemma NumberedAfter(params: seq<(string, Value)>, added: seq<(string, Value)>)
    requires Numbered(params)
    requires forall k :: 0 <= k < |added| ==> added[k].0 == ParamName(|params| + k)
    ensures Numbered(params + added)
  {
  }

  /** LambdaQueryWrapper. The entity class is known by its name; its field list is what
      TableInfoBuilder.getTableInfo gives (None where that throws). */
  class LambdaQueryWrapper {
    const entityClass: string
    const entityFields: Option<seq<FieldDecl>>
    var conditions: seq<string>
    var params: seq<(string, Value)>
    var paramIndex: nat
    var selectColumns: seq<string>
    var orderByClauses: seq<string>
    /** For each parameter, the condition that refers to it. */
    ghost var owner: seq<nat>

    /** The parameters are lwp0, lwp1, ... in the order they were made, and each one's
        placeholder occurs in a condition. */
    ghost predicate Valid()
      reads this
    {
      |params| == paramIndex && Numbered(params) && Bound(params, owner, conditions)
    }

    constructor (entityClass: string, entityFields: Option<seq<FieldDecl>>)
      ensures this.entityClass == entityClass && this.entityFields == entityFields
      ensures conditions == [] && params == [] && paramIndex == 0
      ensures selectColumns == [] && orderByClauses == []
      ensures Valid()
    {
      this.entityClass := entityClass;
      this.entityFields := entityFields;
      conditions := [];
      params := [];
      paramIndex := 0;
      selectColumns := [];
      orderByClauses := [];
      owner := [];
    }

    /** col(fn). */
    function Col(getter: string): string
    {
      ColumnName(FieldName(getter), entityFields)
    }

    /** nextParam. */
    method NextParam() returns (p: string)
      modifies this
      ensures p == ParamName(old(paramIndex)) && paramIndex == old(paramIndex) + 1
      ensures conditions == old(conditions) && params == old(params) && owner == old(owner)
      ensures selectColumns == old(selectColumns) && orderByClauses == old(orderByClauses)
    {
      p := ParamName(paramIndex);
      paramIndex := paramIndex + 1;
    }

    /** The shared body of the one-parameter conditions: `column op p close`, where op ends
        in the colon of the placeholder, with `val` put under p. */
    method AddParamCondition(getter: string, op: string, close: string, val: Value)
      requires Valid()
      requires |op| > 0 && op[|op| - 1] == ':'
      modifies this
      ensures Valid()
      ensures conditions == old(conditions) + [Col(getter) + op + ParamName(old(paramIndex)) + close]
      ensures params == old(params) + [(ParamName(old(paramIndex)), val)]
      ensures paramIndex == old(paramIndex) + 1
      ensures selectColumns == old(selectColumns) && orderByClauses == old(orderByClauses)
    {
      var p := NextParam();
      var cond := Col(getter) + op + p + close;
      PlaceholderIn(Col(getter), op, p, close);
      AddCondition(cond, [(p, val)]);
    }

    /** Records a condition and the parameters made for it, whose names the counter has
        already passed and whose placeholders occur in the condition. */
    method AddCondition(cond: string, added: seq<(string, Value)>)
      requires |params| + |added| == paramIndex && Numbered(params) && Bound(params, owner, conditions)
      requires forall k :: 0 <= k < |added| ==> added[k].0 == ParamName(|params| + k)
      requires forall k :: 0 <= k < |added| ==> Contains(cond, ":" + added[k].0)
      modifies this
      ensures Valid()
      ensures conditions == old(conditions) + [cond] && params == old(params) + added
      ensures paramIndex == old(paramIndex)
      ensures selectColumns == old(selectColumns) && orderByClauses == old(orderByClauses)
    {
      var n := |conditions|;
      var owners := seq(|added|, _ => n);
      BoundAfterCondition(params, owner, conditions, cond, added, owners);
      NumberedAfter(params, added);
      owner := owner + owners;
      conditions := conditions + [cond];
      params := params + added;
    }

    /** eq: `col = :p`. */
    method Eq(getter: string, val: Value)
      requires Valid()
      modifies this
      ensures Valid()
      ensures conditions == old(conditions) + [Col(getter) + " = :" + ParamName(old(paramIndex))]
      ensures params == old(params) + [(ParamName(old(paramIndex)), val)]
      ensures paramIndex == old(paramIndex) + 1
      ensures selectColumns == old(selectColumns) && orderByClauses == old(orderByClauses)
    {
      var p := ParamName(paramIndex);
      AddParamCondition(getter, " = :", "", val);
      assert Col(getter) + " = :" + p + "" == Col(getter) + " = :" + p;
    }

    /** ne: `col != :p`. */
    method Ne(getter: string, val: Value)
      requires Valid()
      modifies this
      ensures Valid()
      ensures conditions == old(conditions) + [Col(getter) + " != :" + ParamName(old(paramIndex))]
      ensures params == old(params) + [(ParamName(old(paramIndex)), val)]
      ensures paramIndex == old(paramIndex) + 1
      ensures selectColumns == old(selectColumns) && orderByClauses == old(orderByClauses)
    {
      var p := ParamName(paramIndex);
      AddParamCondition(getter, " != :", "", val);
      assert Col(getter) + " != :" + p + "" == Col(getter) + " != :" + p;
    }

    /** gt: `col > :p`. */
    method Gt(getter: string, val: Value)
      requires Valid()
      modifies this
      ensures Valid()
      ensures conditions == old(conditions) + [Col(getter) + " > :" + ParamName(old(paramIndex))]
      ensures params == old(params) + [(ParamName(old(paramIndex)), val)]
      ensures paramIndex == old(paramIndex) + 1
      ensures selectColumns == old(selectColumns) && orderByClauses == old(orderByClauses)
    {
      var p := ParamName(paramIndex);
      AddParamCondition(getter, " > :", "", val);
      assert Col(getter) + " > :" + p + "" == Col(getter) + " > :" + p;
    }

    /** ge: `col >= :p`. */
    method Ge(getter: string, val: Value)
      requires Valid()
      modifies this
      ensures Valid()
      ensures conditions == old(conditions) + [Col(getter) + " >= :" + ParamName(old(paramIndex))]
      ensures params == old(params) + [(ParamName(old(paramIndex)), val)]
      ensures paramIndex == old(paramIndex) + 1
      ensures selectColumns == old(selectColumns) && orderByClauses == old(orderByClauses)
    {
      var p := ParamName(paramIndex);
      AddParamCondition(getter, " >= :", "", val);
      assert Col(getter) + " >= :" + p + "" == Col(getter) + " >= :" + p;
    }

    /** lt: `col < :p`. */
    method Lt(getter: string, val: Value)
      requires Valid()
      modifies this
      ensures Valid()
      ensures conditions == old(conditions) + [Col(getter) + " < :" + ParamName(old(paramIndex))]
      ensures params == old(params) + [(ParamName(old(paramIndex)), val)]
      ensures paramIndex == old(paramIndex) + 1
      ensures selectColumns == old(selectColumns) && orderByClauses == old(orderByClauses)
    {
      var p := ParamName(paramIndex);
      AddParamCondition(getter, " < :", "", val);
      assert Col(getter) + " < :" + p + "" == Col(getter) + " < :" + p;
    }

    /** le: `col <= :p`. */
    method Le(getter: string, val: Value)
      requires Valid()
      modifies this
      ensures Valid()
      ensures conditions == old(conditions) + [Col(getter) + " <= :" + ParamName(old(paramIndex))]
      ensures params == old(params) + [(ParamName(old(paramIndex)), val)]
      ensures paramIndex == old(paramIndex) + 1
      ensures selectColumns == old(selectColumns) && orderByClauses == old(orderByClauses)
    {
      var p := ParamName(paramIndex);
      AddParamCondition(getter, " <= :", "", val);
      assert Col(getter) + " <= :" + p + "" == Col(getter) + " <= :" + p;
    }

    /** like: the value is bound as `%val%`. */
    method Like(getter: string, val: Option<string>)
      requires Valid()
      modifies this
      ensures Valid()
      ensures conditions == old(conditions) + [Col(getter) + " LIKE :" + ParamName(old(paramIndex))]
      ensures params == old(params) + [(ParamName(old(paramIndex)), Str("%" + TextOf(val) + "%"))]
      ensures paramIndex == old(paramIndex) + 1
      ensures selectColumns == old(selectColumns) && orderByClauses == old(orderByClauses)
    {
      var p := ParamName(paramIndex);
      AddParamCondition(getter, " LIKE :", "", Str("%" + TextOf(val) + "%"));
      assert Col(getter) + " LIKE :" + p + "" == Col(getter) + " LIKE :" + p;
    }

    /** likeLeft: the value is bound as `%val`. */
    method LikeLeft(getter: string, val: Option<string>)
      requires Valid()
      modifies this
      ensures Valid()
      ensures conditions == old(conditions) + [Col(getter) + " LIKE :" + ParamName(old(paramIndex))]
      ensures params == old(params) + [(ParamName(old(paramIndex)), Str("%" + TextOf(val)))]
      ensures paramIndex == old(paramIndex) + 1
      ensures selectColumns == old(selectColumns) && orderByClauses == old(orderByClauses)
    {
      var p := ParamName(paramIndex);
      AddParamCondition(getter, " LIKE :", "", Str("%" + TextOf(val)));
      assert Col(getter) + " LIKE :" + p + "" == Col(getter) + " LIKE :" + p;
    }

    /** likeRight: the value is bound as `val%`. */
    method LikeRight(getter: string, val: Option<string>)
      requires Valid()
      modifies this
      ensures Valid()
      ensures conditions == old(conditions) + [Col(getter) + " LIKE :" + ParamName(old(paramIndex))]
      ensures params == old(params) + [(ParamName(old(paramIndex)), Str(TextOf(val) + "%"))]
      ensures paramIndex == old(paramIndex) + 1
      ensures selectColumns == old(selectColumns) && orderByClauses == old(orderByClauses)
    {
      var p := ParamName(paramIndex);
      AddParamCondition(getter, " LIKE :", "", Str(TextOf(val) + "%"));
      assert Col(getter) + " LIKE :" + p + "" == Col(getter) + " LIKE :" + p;
    }

    /** in: `col IN (:p)`, the collection bound whole. */
    method In(getter: string, vals: Value)
      requires Valid()
      modifies this
      ensures Valid()
      ensures conditions == old(conditions) + [Col(getter) + " IN (:" + ParamName(old(paramIndex)) + ")"]
      ensures params == old(params) + [(ParamName(old(paramIndex)), vals)]
      ensures paramIndex == old(paramIndex) + 1
      ensures selectColumns == old(selectColumns) && orderByClauses == old(orderByClauses)
    {
      AddParamCondition(getter, " IN (:", ")", vals);
    }

    /** notIn: `col NOT IN (:p)`. */
    method NotIn(getter: string, vals: Value)
      requires Valid()
      modifies this
      ensures Valid()
      ensures conditions == old(conditions) + [Col(getter) + " NOT IN (:" + ParamName(old(paramIndex)) + ")"]
      ensures params == old(params) + [(ParamName(old(paramIndex)), vals)]
      ensures paramIndex == old(paramIndex) + 1
      ensures selectColumns == old(selectColumns) && orderByClauses == old(orderByClauses)
    {
      AddParamCondition(getter, " NOT IN (:", ")", vals);
    }

    /** between: one condition and two parameters, the counter advanced twice. */
    method Between(getter: string, v1: Value, v2: Value)
      requires Valid()
      modifies this
      ensures Valid()
      ensures conditions == old(conditions)
        + [Col(getter) + " BETWEEN :" + ParamName(old(paramIndex)) + " AND :" + ParamName(old(paramIndex) + 1)]
      ensures params == old(params) + [(ParamName(old(paramIndex)), v1), (ParamName(old(paramIndex) + 1), v2)]
      ensures paramIndex == old(paramIndex) + 2
      ensures selectColumns == old(selectColumns) && orderByClauses == old(orderByClauses)
    {
      var p1 := NextParam();
      var p2 := NextParam();
      var cond := Col(getter) + " BETWEEN :" + p1 + " AND :" + p2;
      BetweenPlaceholders(Col(getter), p1, p2);
      AddCondition(cond, [(p1, v1), (p2, v2)]);
    }

    /** isNull: a condition, no parameter, the counter untouched. */
    method IsNull(getter: string)
      requires Valid()
      modifies this
      ensures Valid()
      ensures conditions == old(conditions) + [Col(getter) + " IS NULL"]
      ensures params == old(params) && paramIndex == old(paramIndex)
      ensures selectColumns == old(selectColumns) && orderByClauses == old(orderByClauses)
    {
      AddCondition(Col(getter) + " IS NULL", []);
      assert params + [] == params;
    }

    /** isNotNull: as isNull. */
    method IsNotNull(getter: string)
      requires Valid()
      modifies this
      ensures Valid()
      ensures conditions == old(conditions) + [Col(getter) + " IS NOT NULL"]
      ensures params == old(params) && paramIndex == old(paramIndex)
      ensures selectColumns == old(selectColumns) && orderByClauses == old(orderByClauses)
    {
      AddCondition(Col(getter) + " IS NOT NULL", []);
      assert params + [] == params;
    }

    /** The columns of the getters, each with a suffix, in argument order. */
    function Columns(getters: seq<string>, suffix: string): (r: seq<string>)
      ensures |r| == |getters|
      ensures forall i :: 0 <= i < |getters| ==> r[i] == Col(getters[i]) + suffix
    {
      seq(|getters|, i requires 0 <= i < |getters| => Col(getters[i]) + suffix)
    }

    lemma ColumnsSnoc(getters: seq<string>, suffix: string, i: nat)
      requires i < |getters|
      ensures Columns(getters[..i + 1], suffix) == Columns(getters[..i], suffix) + [Col(getters[i]) + suffix]
    {
      var a := Columns(getters[..i + 1], suffix);
      var b := Columns(getters[..i], suffix) + [Col(getters[i]) + suffix];
      assert |a| == |b|;
      forall k | 0 <= k < |a|
        ensures a[k] == b[k]
      {
        if k < i {
          assert getters[..i + 1][k] == getters[..i][k];
        }
      }
    }

    /** The loop of select, orderByAsc and orderByDesc. */
    method AppendColumns(getters: seq<string>, suffix: string, list: seq<string>) returns (r: seq<string>)
      ensures r == list + Columns(getters, suffix)
    {
      r := list;
      for i := 0 to |getters|
        invariant r == list + Columns(getters[..i], suffix)
      {
        ColumnsSnoc(getters, suffix, i);
        r := r + [Col(getters[i]) + suffix];
      }
      assert getters[..|getters|] == getters;
    }

    /** select: the columns are appended in argument order. */
    method Select(getters: seq<string>)
      requires Valid()
      modifies this
      ensures Valid()
      ensures selectColumns == old(selectColumns) + Columns(getters, "")
      ensures conditions == old(conditions) && params == old(params) && paramIndex == old(paramIndex)
      ensures orderByClauses == old(orderByClauses)
    {
      selectColumns := AppendColumns(getters, "", selectColumns);
    }

    /** orderByAsc: `col ASC` per getter, in argument order. */
    method OrderByAsc(getters: seq<string>)
      requires Valid()
      modifies this
      ensures Valid()
      ensures orderByClauses == old(orderByClauses) + Columns(getters, " ASC")
      ensures conditions == old(conditions) && params == old(params) && paramIndex == old(paramIndex)
      ensures selectColumns == old(selectColumns)
    {
      orderByClauses := AppendColumns(getters, " ASC", orderByClauses);
    }

    /** orderByDesc: `col DESC` per getter, in argument order. */
    method OrderByDesc(getters: seq<string>)
      requires Valid()
      modifies this
      ensures Valid()
      ensures orderByClauses == old(orderByClauses) + Columns(getters, " DESC")
      ensures conditions == old(conditions) && params == old(params) && paramIndex == old(paramIndex)
      ensures selectColumns == old(selectColumns)
    {
      orderByClauses := AppendColumns(getters, " DESC", orderByClauses);
    }

    /** buildSql: fails with IllegalStateException when the registry has no table name for
        the entity class. */
    function BuildSql(reg: Registry): (r: Result<string>)
      reads this
      ensures r.Failure? <==> reg.TableNameByClass(Some(entityClass)).None?
      ensures r.Success? ==>
        r.value == QuerySql(reg.TableNameByClass(Some(entityClass)).value, selectColumns, conditions, orderByClauses)
    {
      match reg.TableNameByClass(Some(entityClass))
      case None => Failure("No table name for entity class " + entityClass)
      case Some(t) => Success(QuerySql(t, selectColumns, conditions, orderByClauses))
    }

    /** getParams. */
    function GetParams(): map<string, Value>
      reads this
    {
      ParamMap(params)
    }

    /** The parameter map holds lwp0 .. lwp(n-1) for the n parameters made so far, each with
        the value given when it was made. */
    lemma ParamsAreNumbered()
      requires Valid()
      ensures GetParams().Keys == set i | 0 <= i < paramIndex :: ParamName(i)
      ensures forall i :: 0 <= i < paramIndex ==> GetParams()[ParamName(i)] == params[i].1
    {
      NumberedParamMap(params);
    }

    /** Every bound parameter's placeholder occurs in the built SQL. */
    lemma ParamsBoundInSql(reg: Registry)
      requires Valid() && BuildSql(reg).Success?
      ensures forall p :: p in GetParams() ==> Contains(BuildSql(reg).value, ":" + p)
    {
      ParamsAreNumbered();
      var sql := BuildSql(reg).value;
      QueryCarriesEveryPart(reg.TableNameByClass(Some(entityClass)).value, selectColumns, conditions, orderByClauses);
      forall p | p in GetParams()
        ensures Contains(sql, ":" + p)
      {
        var i :| 0 <= i < paramIndex && ParamName(i) == p;
        ContainsTransitive(sql, conditions[owner[i]], ":" + p);
      }
    }
  }

  /** A placeholder written as `op p` with op ending in ':' occurs as ":" + p. */
  lemma PlaceholderIn(pre: string, op: string, p: string, post: string)
    requires |op| > 0 && op[|op| - 1] == ':'
    ensures Contains(pre + op + p + post, ":" + p)
  {
    var front := pre + op[..|op| - 1];
    assert pre + op == front + ":";
    ContainsMiddle(front, ":" + p, post);
    assert pre + op + p + post == front + (":" + p) + post;
  }

  /** Both placeholders of a BETWEEN condition occur in it. */
  lemma BetweenPlaceholders(col: string, p1: string, p2: string)
    ensures Contains(col + " BETWEEN :" + p1 + " AND :" + p2, ":" + p1)
    ensures Contains(col + " BETWEEN :" + p1 + " AND :" + p2, ":" + p2)
  {
    var cond := col + " BETWEEN :" + p1 + " AND :" + p2;
    PlaceholderIn(col, " BETWEEN :", p1, " AND :" + p2);
    assert cond == col + " BETWEEN :" + p1 + (" AND :" + p2);
    PlaceholderIn(col + " BETWEEN :" + p1, " AND :", p2, "");
    assert cond == col + " BETWEEN :" + p1 + " AND :" + p2 + "";
  }
}
