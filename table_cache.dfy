/** TableCacheManager: the registry of logical-delete descriptors and table names built from the
    @MyTable classes, plus the tenant-table set and per-descriptor validity flag that the engine
    and the schema validator consult. */
module TableCache {
  import opened Wrappers
  import opened Text
  import opened Metadata

  /** DeleteInfo. `valid` is cleared by the schema check when the column is missing. */
  datatype DeleteInfo = DeleteInfo(delColumn: string, delField: string, delValue: int, valid: bool)
  {
    /** getUnDelValue: the flag value a live (not deleted) row carries. */
    function UnDelValue(): (r: int)
      ensures r == 0 || r == 1
      ensures r == 1 <==> delValue == 0
      ensures (delValue == 0 || delValue == 1) ==> r != delValue
    {
      if delValue == 0 then 1 else 0
    }
  }

  /** The descriptor scanPackage builds for an annotated class. */
  function DescriptorOf(t: MyTable): DeleteInfo
  {
    DeleteInfo(t.delColumn, t.delField, t.delValue, true)
  }

  /** The registry's contents. Descriptors live in `infos`; the table-keyed and class-keyed maps
      hold positions in it, so both maps share one descriptor as they share one Java object. */
  datatype Registry = Registry(
    infos: seq<DeleteInfo>,
    tableDeleteInfo: map<string, nat>,   // key: lower-cased table name
    classDeleteInfo: map<string, nat>,   // key: class name
    classTableName: map<string, string>, // class name -> table name as written
    pkColumns: map<string, string>,      // key: lower-cased table name
    tenantTables: set<string>)           // lower-cased table names
  {
    ghost predicate Valid()
    {
      (forall k :: k in tableDeleteInfo ==> tableDeleteInfo[k] < |infos|)
      && (forall k :: k in classDeleteInfo ==> classDeleteInfo[k] < |infos|)
    }

    function InfoAt(i: nat): Option<DeleteInfo>
    {
      if i < |infos| then Some(infos[i]) else None
    }

    /** getDeleteInfoByTableName. */
    function DeleteInfoByTableName(tableName: Option<string>): (r: Option<DeleteInfo>)
      ensures tableName.None? ==> r.None?
      ensures r.Some? ==> r.value in infos && ToLower(tableName.value) in AllTableNames()
    {
      if tableName.None? then None
      else if ToLower(tableName.value) in tableDeleteInfo then InfoAt(tableDeleteInfo[ToLower(tableName.value)])
      else None
    }

    /** getDeleteInfoByClassName; getDeleteInfoByClass is this applied to the class's name. */
    function DeleteInfoByClassName(className: Option<string>): (r: Option<DeleteInfo>)
      ensures className.None? ==> r.None?
      ensures r.Some? ==> r.value in infos && className.value in classDeleteInfo
    {
      if className.None? then None
      else if className.value in classDeleteInfo then InfoAt(classDeleteInfo[className.value])
      else None
    }

    /** getTableNameByClass. */
    function TableNameByClass(className: Option<string>): (r: Option<string>)
      ensures r.Some? <==> className.Some? && className.value in classTableName
      ensures r.Some? ==> r.value in classTableName.Values
    {
      if className.None? then None
      else if className.value in classTableName then Some(classTableName[className.value])
      else None
    }

    /** hasDeleteCondition(String). */
    function HasDeleteCondition(tableName: Option<string>): (r: bool)
      ensures r ==> tableName.Some? && ToLower(tableName.value) in AllTableNames()
    {
      DeleteInfoByTableName(tableName) != None
    }

    /** hasDeleteCondition(Class). */
    predicate HasDeleteConditionForClass(className: Option<string>)
    {
      DeleteInfoByClassName(className) != None
    }

    /** hasTenantColumn (inferred from its call sites). */
    function HasTenantColumn(tableName: string): (r: bool)
      ensures r ==> exists n :: n in tenantTables && EqualsIgnoreCase(n, tableName)
      ensures tenantTables == {} ==> !r
    {
      assert ToLower(ToLower(tableName)) == ToLower(tableName);
      ToLower(tableName) in tenantTables
    }

    /** getAllTableNames (inferred): the lower-cased keys of the table map. */
    function AllTableNames(): set<string>
    {
      tableDeleteInfo.Keys
    }

    /** getPkInfoByTableName(..).getPkColumn() (inferred). */
    function PkColumnByTableName(tableName: string): Option<string>
    {
      if ToLower(tableName) in pkColumns then Some(pkColumns[ToLower(tableName)]) else None
    }

    /** The body of scanPackage's loop for one class. */
    function WithEntity(c: EntityClass): (r: Registry)
      ensures Valid() ==> r.Valid()
      ensures c.table.None? ==> r == this
      ensures c.table.Some? ==>
        && r.DeleteInfoByClassName(Some(c.name)) == Some(DescriptorOf(c.table.value))
        && r.TableNameByClass(Some(c.name)) == Some(c.table.value.value)
        && (forall n :: EqualsIgnoreCase(n, c.table.value.value) ==>
              r.DeleteInfoByTableName(Some(n)) == Some(DescriptorOf(c.table.value)))
      ensures Valid() ==> forall k :: k != c.name ==>
        r.DeleteInfoByClassName(Some(k)) == DeleteInfoByClassName(Some(k))
      ensures r.tenantTables == tenantTables
    {
      if c.table.None? then this
      else
        var t := c.table.value;
        Registry(
          infos + [DescriptorOf(t)],
          tableDeleteInfo[ToLower(t.value) := |infos|],
          classDeleteInfo[c.name := |infos|],
          classTableName[c.name := t.value],
          pkColumns[ToLower(t.value) := t.pkColumn],
          tenantTables)
    }

    /** markDeleteFieldAsInvalid (inferred): clears the valid flag of the table's descriptor,
        which every class registered with that descriptor also sees. */
    function MarkDeleteFieldAsInvalid(tableName: string): (r: Registry)
      ensures Valid() ==> r.Valid()
      ensures DeleteInfoByTableName(Some(tableName)).None? ==> r == this
      ensures DeleteInfoByTableName(Some(tableName)).Some? ==>
        r.DeleteInfoByTableName(Some(tableName)) == Some(DeleteInfoByTableName(Some(tableName)).value.(valid := false))
      ensures forall k ::
        (k in classDeleteInfo && ToLower(tableName) in tableDeleteInfo
         && classDeleteInfo[k] == tableDeleteInfo[ToLower(tableName)] && classDeleteInfo[k] < |infos|) ==>
        r.DeleteInfoByClassName(Some(k)) == Some(infos[classDeleteInfo[k]].(valid := false))
      ensures r.AllTableNames() == AllTableNames() && r.tenantTables == tenantTables
    {
      var key := ToLower(tableName);
      if key in tableDeleteInfo && tableDeleteInfo[key] < |infos| then
        var i := tableDeleteInfo[key];
        this.(infos := infos[i := infos[i].(valid := false)])
      else this
    }

    /** registerTenantTable (inferred). */
    function RegisterTenantTable(tableName: string): (r: Registry)
      ensures forall n :: r.HasTenantColumn(n) <==> HasTenantColumn(n) || EqualsIgnoreCase(n, tableName)
      ensures r.tableDeleteInfo == tableDeleteInfo && r.infos == infos
    {
      this.(tenantTables := tenantTables + {ToLower(tableName)})
    }
  }

  /** The registry before any scan, and after clearCache. */
  function EmptyRegistry(): (r: Registry)
    ensures r.Valid()
    ensures forall n :: r.DeleteInfoByTableName(n).None? && r.DeleteInfoByClassName(n).None? && r.TableNameByClass(n).None?
  {
    Registry([], map[], map[], map[], map[], {})
  }

  /** Registering classes in order, as scanPackage's loop does. */
  function RegisterAll(reg: Registry, classes: seq<EntityClass>): Registry
  {
    if |classes| == 0 then reg else RegisterAll(reg, classes[..|classes| - 1]).WithEntity(classes[|classes| - 1])
  }

  /** Every annotated class scanned is registered under its own name and its table's key. */
  lemma {:induction false} ScanRegistersEveryAnnotatedClass(reg: Registry, classes: seq<EntityClass>, c: EntityClass)
    requires c in classes && c.table.Some?
    ensures c.name in RegisterAll(reg, classes).classDeleteInfo
    ensures c.name in RegisterAll(reg, classes).classTableName
    ensures ToLower(c.table.value.value) in RegisterAll(reg, classes).tableDeleteInfo
    decreases |classes|
  {
    var last := classes[|classes| - 1];
    if c != last {
      assert c in classes[..|classes| - 1];
      ScanRegistersEveryAnnotatedClass(reg, classes[..|classes| - 1], c);
    }
  }

  /** A later class whose table name differs only in case replaces the earlier descriptor. */
  lemma LaterTableOverwrites(reg: Registry, first: EntityClass, second: EntityClass)
    requires first.table.Some? && second.table.Some?
    requires EqualsIgnoreCase(first.table.value.value, second.table.value.value)
    ensures reg.WithEntity(first).WithEntity(second).DeleteInfoByTableName(Some(first.table.value.value))
      == Some(DescriptorOf(second.table.value))
  {
  }

  lemma ScanPreservesValid(reg: Registry, classes: seq<EntityClass>)
    requires reg.Valid()
    ensures RegisterAll(reg, classes).Valid()
  {
  }

  /** TableCacheManager's static state. */
  class TableCacheManager {
    var infos: seq<DeleteInfo>
    var tableDeleteInfo: map<string, nat>
    var classDeleteInfo: map<string, nat>
    var classTableName: map<string, string>
    var pkColumns: map<string, string>
    var tenantTables: set<string>

    function Snapshot(): Registry
      reads this
    {
      Registry(infos, tableDeleteInfo, classDeleteInfo, classTableName, pkColumns, tenantTables)
    }

    ghost predicate Valid()
      reads this
    {
      Snapshot().Valid()
    }

    constructor ()
      ensures Valid() && Snapshot() == EmptyRegistry()
    {
      infos, tableDeleteInfo, classDeleteInfo, classTableName, pkColumns, tenantTables :=
        [], map[], map[], map[], map[], {};
    }

    /** scanPackage: registers each annotated class in turn. */
    method ScanPackage(classes: seq<EntityClass>)
      requires Valid()
      modifies this
      ensures Valid()
      ensures Snapshot() == RegisterAll(old(Snapshot()), classes)
    {
      var i := 0;
      while i < |classes|
        invariant 0 <= i <= |classes|
        invariant Valid()
        invariant Snapshot() == RegisterAll(old(Snapshot()), classes[..i])
      {
        var c := classes[i];
        if c.table.Some? {
          var t := c.table.value;
          var idx := |infos|;
          infos := infos + [DescriptorOf(t)];
          tableDeleteInfo := tableDeleteInfo[ToLower(t.value) := idx];
          classDeleteInfo := classDeleteInfo[c.name := idx];
          classTableName := classTableName[c.name := t.value];
          pkColumns := pkColumns[ToLower(t.value) := t.pkColumn];
        }
        assert classes[..i + 1][..i] == classes[..i];
        i := i + 1;
      }
      assert classes[..i] == classes;
    }

    /** clearCache; the inferred tenant set and descriptor flags go with the maps. */
    method ClearCache()
      modifies this
      ensures Valid() && Snapshot() == EmptyRegistry()
    {
      infos, tableDeleteInfo, classDeleteInfo, classTableName, pkColumns, tenantTables :=
        [], map[], map[], map[], map[], {};
    }

    method MarkDeleteFieldAsInvalid(tableName: string)
      requires Valid()
      modifies this
      ensures Valid()
      ensures Snapshot() == old(Snapshot()).MarkDeleteFieldAsInvalid(tableName)
    {
      var key := ToLower(tableName);
      if key in tableDeleteInfo {
        var i := tableDeleteInfo[key];
        infos := infos[i := infos[i].(valid := false)];
      }
    }

    method RegisterTenantTable(tableName: string)
      requires Valid()
      modifies this
      ensures Valid()
      ensures Snapshot() == old(Snapshot()).RegisterTenantTable(tableName)
    {
      tenantTables := tenantTables + {ToLower(tableName)};
    }
  }
}
