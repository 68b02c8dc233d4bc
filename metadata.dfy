/** Entity metadata: the @MyTable and @MyField annotations, declared fields, and the
    TableInfo record built for each annotated entity class. */
module Metadata {
  import opened Wrappers

  /** @MyTable. `value` is the table name. */
  datatype MyTable = MyTable(
    value: string,
    pkColumn: string,
    pkField: string,
    delColumn: string,
    delField: string,
    delValue: int)

  /** @MyTable(value) with every other element left at its default. */
  function DefaultMyTable(value: string): MyTable
  {
    MyTable(value, "id", "id", "delete_flag", "deleteFlag", 1)
  }

  /** @MyField: the column name ("" when not given) and whether the field is persisted. */
  datatype MyField = MyField(value: string, serialize: bool)

  /** A declared java.lang.reflect.Field, with the modifiers and annotation the library reads. */
  datatype FieldDecl = FieldDecl(
    name: string,
    annotation: Option<MyField>,
    isStatic: bool,
    isTransient: bool)

  /** A class as the annotation scanner sees it. */
  datatype EntityClass = EntityClass(name: string, table: Option<MyTable>)

  /** TableInfo: what TableInfoBuilder records for one @MyTable class. */
  datatype TableInfo = TableInfo(
    tableName: string,
    className: string,
    pkFieldName: string,
    pkColumnName: string,
    delColumnName: string,
    delFieldName: string,
    delValue: int,
    fields: seq<FieldDecl>)

  /** The first field of the list with the given name: TableInfo.getFieldByName's findFirst,
      and where getColumnName's loop stops. */
  function FindField(fields: seq<FieldDecl>, name: string): (r: Option<nat>)
    ensures r.Some? ==> r.value < |fields| && fields[r.value].name == name
    ensures r.Some? ==> forall j :: 0 <= j < r.value ==> fields[j].name != name
    ensures r.None? <==> forall j :: 0 <= j < |fields| ==> fields[j].name != name
  {
    if |fields| == 0 then None
    else if fields[0].name == name then Some(0)
    else match FindField(fields[1..], name)
      case None => None
      case Some(i) => Some(i + 1)
  }
}
