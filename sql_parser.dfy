/** SqlParser: the INSERT, UPDATE, SELECT and DELETE templates the DAO fills from an entity's
    TableInfo. An entity object is represented by what reading each property gives: a field
    name missing from the map is a property whose read throws. */
module SqlParser {
  import opened Wrappers
  import opened Text
  import opened Values
  import opened Metadata
  import opened TableCache
  import opened CommonUtils
  import opened ConditionEngine
  import opened DynamicSqlParser

  /** The entity's property values, by field name. */
  type EntityObject = map<string, Value>

  /** A @MyField(serialize = false) field is never written. */
  predicate Serialized(f: FieldDecl)
  {
    !(f.annotation.Some? && !f.annotation.value.serialize)
  }

  /** With ignoreNull, a field is written only if its value can be read, is not null, does
      not print as "null" in any case, and is not a blank string. */
  predicate HasUsableValue(obj: EntityObject, name: string)
  {
    && name in obj
    && obj[name] != Null
    && !EqualsIgnoreCase(Show(obj[name]), "null")
    && (obj[name].Str? ==> HasText(obj[name].s))
  }

  /** getInsertSql's filter. */
  predicate KeptForInsert(obj: EntityObject, ignoreNull: bool, f: FieldDecl)
  {
    Serialized(f) && (!ignoreNull || HasUsableValue(obj, f.name))
  }

  /** The fields the filter keeps, in declaration order. */
  function InsertFields(obj: EntityObject, ignoreNull: bool, fields: seq<FieldDecl>): seq<FieldDecl>
  {
    if |fields| == 0 then []
    else
      var last := fields[|fields| - 1];
      InsertFields(obj, ignoreNull, fields[..|fields| - 1]) + (if KeptForInsert(obj, ignoreNull, last) then [last] else [])
  }

  /** Exactly the declared fields the filter accepts are kept. */
  lemma {:induction false} InsertFieldsAreFiltered(obj: EntityObject, ignoreNull: bool, fields: seq<FieldDecl>)
    ensures forall f :: f in InsertFields(obj, ignoreNull, fields) <==> f in fields && KeptForInsert(obj, ignoreNull, f)
  {
    if |fields| > 0 {
      var init := fields[..|fields| - 1];
      InsertFieldsAreFiltered(obj, ignoreNull, init);
      assert fields == init + [fields[|fields| - 1]];
    }
  }

  /** A @MyField value with text. */
  predicate AnnotatedColumn(f: FieldDecl)
  {
    f.annotation.Some? && HasText(f.annotation.value.value)
  }

  /** The INSERT column of a field: the primary key column, then the delete column, then the
      trimmed annotation value, then the snake_case name. */
  function InsertColumn(info: TableInfo, f: FieldDecl): string
  {
    var fName := Trim(f.name);
    if fName == info.pkFieldName then info.pkColumnName
    else if fName == info.delFieldName then info.delColumnName
    else if AnnotatedColumn(f) then Trim(f.annotation.value.value)
    else ToUnderscore(fName)
  }

  /** INSERT_SQL filled in. */
  function InsertTemplate(tableName: string, columns: string, values: string): string
  {
    "INSERT INTO " + tableName + "(" + columns + ") VALUES (" + values + ")"
  }

  /** The column list and the value list: one entry each per kept field, in the same order;
      each value is the named placeholder of the field. */
  function InsertColumns(info: TableInfo, kept: seq<FieldDecl>): (r: seq<string>)
    ensures |r| == |kept|
  {
    seq(|kept|, i requires 0 <= i < |kept| => InsertColumn(info, kept[i]))
  }

  function InsertValues(kept: seq<FieldDecl>): (r: seq<string>)
    ensures |r| == |kept|
    ensures forall i :: 0 <= i < |kept| ==> r[i] == ":" + Trim(kept[i].name)
  {
    seq(|kept|, i requires 0 <= i < |kept| => ":" + Trim(kept[i].name))
  }

  /** getInsertSql(tableInfo, obj, ignoreNull). */
  function InsertSql(info: TableInfo, obj: EntityObject, ignoreNull: bool): (r: string)
    ensures StartsWith(r, "INSERT INTO " + info.tableName + "(")
    ensures |r| > 0 && r[|r| - 1] == ')'
  {
    var kept := InsertFields(obj, ignoreNull, info.fields);
    var head := "INSERT INTO " + info.tableName + "(";
    var tail := Join(",", InsertColumns(info, kept)) + ") VALUES (" + Join(",", InsertValues(kept)) + ")";
    assert InsertTemplate(info.tableName, Join(",", InsertColumns(info, kept)), Join(",", InsertValues(kept))) == head + tail;
    StartsWithConcat(head, tail);
    InsertTemplate(info.tableName, Join(",", InsertColumns(info, kept)), Join(",", InsertValues(kept)))
  }

  /** getInsertSql's stream: the filter and the map run field by field, and the map pushes
      each field name into valueList as it goes. */
  method GetInsertSql(info: TableInfo, obj: EntityObject, ignoreNull: bool) returns (r: string)
    ensures r == InsertSql(info, obj, ignoreNull)
  {
    var columns: seq<string> := [];
    var valueList: seq<string> := [];
    for i := 0 to |info.fields|
      invariant columns == InsertColumns(info, InsertFields(obj, ignoreNull, info.fields[..i]))
      invariant valueList == seq(|columns|, j requires 0 <= j < |columns| => Trim(InsertFields(obj, ignoreNull, info.fields[..i])[j].name))
    {
      var f := info.fields[i];
      assert info.fields[..i + 1][..i] == info.fields[..i];
      if KeptForInsert(obj, ignoreNull, f) {
        var fName := Trim(f.name);
        valueList := valueList + [fName];
        columns := columns + [InsertColumn(info, f)];
      }
    }
    assert info.fields[..|info.fields|] == info.fields;
    var values := seq(|valueList|, j requires 0 <= j < |valueList| => ":" + valueList[j]);
    assert values == InsertValues(InsertFields(obj, ignoreNull, info.fields));
    r := InsertTemplate(info.tableName, Join(",", columns), Join(",", values));
  }

  /** The INSERT text has its ") VALUES (" right after the column list and ends with ')'. */
  lemma InsertSqlShape(info: TableInfo, obj: EntityObject, ignoreNull: bool)
    ensures var s := InsertSql(info, obj, ignoreNull);
      var kept := InsertFields(obj, ignoreNull, info.fields);
      var k := |"INSERT INTO " + info.tableName + "(" + Join(",", InsertColumns(info, kept))|;
      && OccursAt(s, ") VALUES (", k)
      && k + 10 < |s| && s[|s| - 1] == ')' && s[0] == 'I'
  {
    var kept := InsertFields(obj, ignoreNull, info.fields);
    var front := "INSERT INTO " + info.tableName + "(" + Join(",", InsertColumns(info, kept));
    var vals := Join(",", InsertValues(kept));
    var s := InsertSql(info, obj, ignoreNull);
    assert s == front + ") VALUES (" + vals + ")";
    assert s[|front|..|front| + 10] == ") VALUES (";
  }

  /** Upper-casing leaves ") VALUES" as it is. */
  lemma MarkerIsUpper()
    ensures ToUpper(VALUES_MARKER) == VALUES_MARKER
  {
    assert |VALUES_MARKER| == 8;
    forall i | 0 <= i < 8
      ensures ToUpperChar(VALUES_MARKER[i]) == VALUES_MARKER[i]
    {
    }
  }

  /** Every INSERT this class builds is one appendTenantToInsertSql rewrites, unless it
      already names the tenant column: it has ") VALUES" and a later ')'. Afterwards the text
      names the tenant column. */
  lemma InsertSqlTakesTenant(info: TableInfo, obj: EntityObject, ignoreNull: bool, tenantColumn: string)
    requires !Contains(ToLower(InsertSql(info, obj, ignoreNull)), ToLower(tenantColumn))
    ensures var s := InsertSql(info, obj, ignoreNull);
      && AppendTenantToInsertSql(true, tenantColumn, Some(s)) != Some(s)
      && Contains(ToLower(AppendTenantToInsertSql(true, tenantColumn, Some(s)).value), ToLower(tenantColumn))
  {
    var s := InsertSql(info, obj, ignoreNull);
    var kept := InsertFields(obj, ignoreNull, info.fields);
    var k := |"INSERT INTO " + info.tableName + "(" + Join(",", InsertColumns(info, kept))|;
    InsertSqlShape(info, obj, ignoreNull);
    assert !IsBlank(s) by { assert !IsWhitespace(s[0]); }
    assert s[k..k + 8] == VALUES_MARKER;
    MarkerIsUpper();
    assert ToUpper(s)[k..k + 8] == ToUpper(s[k..k + 8]);
    assert OccursAt(ToUpper(s), VALUES_MARKER, k);
    var closeParen := IndexOf(ToUpper(s), VALUES_MARKER);
    assert closeParen != -1 && closeParen <= k;
    assert LastIndexOfChar(s, ')') == |s| - 1;
    InsertRewriteMentionsColumn(true, tenantColumn, s);
  }

  /** getUpdateSql's filter: a forced field is always written; the rest as for INSERT. */
  predicate KeptForUpdate(obj: EntityObject, ignoreNull: bool, forceUpdateFields: seq<string>, f: FieldDecl)
  {
    f.name in forceUpdateFields || KeptForInsert(obj, ignoreNull, f)
  }

  function UpdateFields(obj: EntityObject, ignoreNull: bool, forceUpdateFields: seq<string>, fields: seq<FieldDecl>): seq<FieldDecl>
  {
    if |fields| == 0 then []
    else
      var last := fields[|fields| - 1];
      UpdateFields(obj, ignoreNull, forceUpdateFields, fields[..|fields| - 1])
      + (if KeptForUpdate(obj, ignoreNull, forceUpdateFields, last) then [last] else [])
  }

  /** A forced field is updated even when its value is null or it is not serialized. */
  lemma {:induction false} ForcedFieldsAreUpdated(obj: EntityObject, ignoreNull: bool, forceUpdateFields: seq<string>, fields: seq<FieldDecl>)
    ensures forall f :: f in fields && f.name in forceUpdateFields ==> f in UpdateFields(obj, ignoreNull, forceUpdateFields, fields)
    ensures forall f :: f in UpdateFields(obj, ignoreNull, forceUpdateFields, fields) ==> f in fields
  {
    if |fields| > 0 {
      var init := fields[..|fields| - 1];
      ForcedFieldsAreUpdated(obj, ignoreNull, forceUpdateFields, init);
      assert fields == init + [fields[|fields| - 1]];
    }
  }

  /** The UPDATE column of a field: the trimmed annotation value, then the delete column, then
      the primary key column, then the snake_case name (the later assignment wins). */
  function UpdateColumn(info: TableInfo, f: FieldDecl): string
  {
    var fieldName := Trim(f.name);
    if AnnotatedColumn(f) then Trim(f.annotation.value.value)
    else if fieldName == info.delFieldName then info.delColumnName
    else if fieldName == info.pkFieldName then info.pkColumnName
    else ToUnderscore(fieldName)
  }

  /** getUpdateSql: `col=:field` per kept field, and the primary key in the WHERE. */
  function UpdateSql(info: TableInfo, obj: EntityObject, ignoreNull: bool, forceUpdateFields: seq<string>): (r: string)
    ensures StartsWith(r, "UPDATE " + info.tableName + " SET ")
  {
    var kept := UpdateFields(obj, ignoreNull, forceUpdateFields, info.fields);
    var sets := seq(|kept|, i requires 0 <= i < |kept| => UpdateColumn(info, kept[i]) + "=:" + Trim(kept[i].name));
    var head := "UPDATE " + info.tableName + " SET ";
    assert ("UPDATE " + info.tableName + " SET " + Join(",", sets)) + KeyCondition(info) == head + (Join(",", sets) + KeyCondition(info));
    StartsWithConcat(head, Join(",", sets) + KeyCondition(info));
    ("UPDATE " + info.tableName + " SET " + Join(",", sets)) + KeyCondition(info)
  }

  /** The primary key condition of UPDATE_SQL and SELECT_BY_SQL. */
  function KeyCondition(info: TableInfo): string
  {
    " WHERE " + info.pkColumnName + "=:" + info.pkFieldName
  }

  /** The UPDATE ends with the primary key condition. */
  lemma UpdateSqlEndsWithKey(info: TableInfo, obj: EntityObject, ignoreNull: bool, forceUpdateFields: seq<string>)
    ensures EndsWith(UpdateSql(info, obj, ignoreNull, forceUpdateFields), KeyCondition(info))
  {
    var kept := UpdateFields(obj, ignoreNull, forceUpdateFields, info.fields);
    var sets := seq(|kept|, i requires 0 <= i < |kept| => UpdateColumn(info, kept[i]) + "=:" + Trim(kept[i].name));
    EndsWithConcat("UPDATE " + info.tableName + " SET " + Join(",", sets), KeyCondition(info));
  }

  /** getSelectByIdSql. */
  function SelectByIdSql(info: TableInfo): (r: string)
    ensures StartsWith(r, "SELECT * FROM " + info.tableName)
    ensures EndsWith(r, KeyCondition(info))
  {
    StartsWithConcat("SELECT * FROM " + info.tableName, KeyCondition(info));
    EndsWithConcat("SELECT * FROM " + info.tableName, KeyCondition(info));
    "SELECT * FROM " + info.tableName + KeyCondition(info)
  }

  /** The column getSelectByFieldSql compares: the delete column, then the primary key column,
      then the untrimmed annotation value, then the snake_case name. */
  function SelectByFieldColumn(info: TableInfo, fieldName: string, f: FieldDecl): string
  {
    if fieldName == info.delFieldName then info.delColumnName
    else if fieldName == info.pkFieldName then info.pkColumnName
    else if AnnotatedColumn(f) then f.annotation.value.value
    else ToUnderscore(fieldName)
  }

  /** getSelectByFieldSql; getFieldByName throws BusinessException for an unknown field. */
  function SelectByFieldSql(info: TableInfo, fieldName: string): (r: Result<string>)
    ensures r.Failure? <==> FindField(info.fields, fieldName).None?
  {
    match FindField(info.fields, fieldName)
    case None => Failure("Field " + fieldName + " not found")
    case Some(i) =>
      Success("SELECT * FROM " + info.tableName + (" WHERE " + SelectByFieldColumn(info, fieldName, info.fields[i]) + "=:" + fieldName))
  }

  /** Selecting by the primary key field is selecting by id, unless the key field is also the
      delete field. */
  lemma SelectByKeyFieldIsSelectById(info: TableInfo)
    requires FindField(info.fields, info.pkFieldName).Some?
    requires info.pkFieldName != info.delFieldName
    ensures SelectByFieldSql(info, info.pkFieldName) == Success(SelectByIdSql(info))
  {
  }

  /** The three statements agree on a field's column when no precedence rule separates them:
      the field is neither the key nor the delete field, or carries no column annotation, and
      its annotation value has no surrounding blanks. */
  lemma ColumnsAgree(info: TableInfo, f: FieldDecl)
    requires f.name == Trim(f.name)
    requires info.pkFieldName != info.delFieldName
    requires !AnnotatedColumn(f) || (f.name != info.pkFieldName && f.name != info.delFieldName)
    requires AnnotatedColumn(f) ==> f.annotation.value.value == Trim(f.annotation.value.value)
    ensures InsertColumn(info, f) == UpdateColumn(info, f) == SelectByFieldColumn(info, f.name, f)
  {
  }

  /** The descriptor getDelByIdSql and getDelByIdsSql look up: it exists, is valid and names
      a column. */
  predicate LogicalDelete(reg: Registry, info: TableInfo)
  {
    var d := reg.DeleteInfoByClassName(Some(info.className));
    d.Some? && d.value.valid && HasText(d.value.delColumn)
  }

  /** getDelByIdSql. */
  function DelByIdSql(reg: Registry, info: TableInfo): (r: string)
    ensures StartsWith(r, (if LogicalDelete(reg, info) then "UPDATE " else "DELETE FROM ") + info.tableName)
    ensures EndsWith(r, "?")
  {
    if LogicalDelete(reg, info) then
      var d := reg.DeleteInfoByClassName(Some(info.className)).value;
      var head := "UPDATE " + info.tableName;
      var rest := " SET " + d.delColumn + " = " + IntToString(d.delValue) + " WHERE " + info.pkColumnName + " = ";
      StartsWithConcat3(head, rest, "?");
      EndsWithConcat(head + rest, "?");
      head + rest + "?"
    else
      var head := "DELETE FROM " + info.tableName;
      var rest := " WHERE " + info.pkColumnName + "=";
      StartsWithConcat3(head, rest, "?");
      EndsWithConcat(head + rest, "?");
      head + rest + "?"
  }

  /** getDelByIdsSql. */
  function DelByIdsSql(reg: Registry, info: TableInfo): (r: string)
    ensures StartsWith(r, (if LogicalDelete(reg, info) then "UPDATE " else "DELETE FROM ") + info.tableName)
    ensures EndsWith(r, " in (:" + info.pkFieldName + ")")
  {
    var list := " in (:" + info.pkFieldName + ")";
    if LogicalDelete(reg, info) then
      var d := reg.DeleteInfoByClassName(Some(info.className)).value;
      var head := "UPDATE " + info.tableName;
      var rest := " SET " + d.delColumn + " = " + IntToString(d.delValue) + " WHERE " + info.pkColumnName;
      StartsWithConcat3(head, rest, list);
      EndsWithConcat(head + rest, list);
      head + rest + list
    else
      var head := "DELETE FROM " + info.tableName;
      var rest := " WHERE " + info.pkColumnName;
      StartsWithConcat3(head, rest, list);
      EndsWithConcat(head + rest, list);
      head + rest + list
  }

  /** A text that starts with one of two keywords of different first characters, followed
      by more text, starts with that keyword and not with the other. */
  lemma KeywordDecides(s: string, p: string, q: string, t: string, first: bool)
    requires |p| > 0 && |q| > 0 && p[0] != q[0]
    requires StartsWith(s, (if first then p else q) + t)
    ensures StartsWith(s, p) <==> first
    ensures StartsWith(s, q) <==> !first
  {
    var h := if first then p else q;
    assert s[..|h|] == (h + t)[..|h|] == h;
  }

  /** A delete by id is a logical UPDATE exactly when the class has a live descriptor with a
      column, and a physical DELETE otherwise. */
  lemma DelByIdIsLogicalIff(reg: Registry, info: TableInfo)
    ensures StartsWith(DelByIdSql(reg, info), "UPDATE ") <==> LogicalDelete(reg, info)
    ensures StartsWith(DelByIdSql(reg, info), "DELETE FROM ") <==> !LogicalDelete(reg, info)
  {
    KeywordDecides(DelByIdSql(reg, info), "UPDATE ", "DELETE FROM ", info.tableName, LogicalDelete(reg, info));
  }

  /** The same rule for the delete by ids. */
  lemma DelByIdsIsLogicalIff(reg: Registry, info: TableInfo)
    ensures StartsWith(DelByIdsSql(reg, info), "UPDATE ") <==> LogicalDelete(reg, info)
    ensures StartsWith(DelByIdsSql(reg, info), "DELETE FROM ") <==> !LogicalDelete(reg, info)
  {
    KeywordDecides(DelByIdsSql(reg, info), "UPDATE ", "DELETE FROM ", info.tableName, LogicalDelete(reg, info));
  }
}
