/** MyBeanPropertyRowMapper: maps each result-set column to a bean property through a table of
    lower-cased and underscored key names built once per mapped class. Values and their
    conversion are not modelled; a row maps to the list of property writes it makes. */
module RowMapping {
  import opened Wrappers
  import opened Text
  import opened Metadata
  import opened CommonUtils

  /** A bean property descriptor: its name and whether it has a write method. */
  datatype Property = Property(name: string, writable: bool)

  /** A class to map rows to: its TableInfo (None when it has no @MyTable, so that
      TableInfoBuilder.getTableInfo throws) and the property descriptors of the bean. */
  datatype BeanClass = BeanClass(name: string, table: Option<TableInfo>, properties: seq<Property>)

  /** BeanUtils.getPropertyDescriptor: the descriptor of the property with that name, null
      when the bean has none. */
  function FindProperty(props: seq<Property>, name: string): (r: Option<Property>)
    ensures r.Some? ==> r.value in props && r.value.name == name
    ensures r.None? <==> forall j :: 0 <= j < |props| ==> props[j].name != name
  {
    if |props| == 0 then None
    else if props[0].name == name then Some(props[0])
    else FindProperty(props[1..], name)
  }

  /** The key name initialize gives a field: the key column for the key field, otherwise the
      trimmed @MyField value when it has text, otherwise the field name. */
  function KeyName(info: TableInfo, f: FieldDecl): (r: string)
    ensures f.name == info.pkFieldName ==> r == info.pkColumnName
    ensures r != f.name && f.name != info.pkFieldName ==>
      f.annotation.Some? && HasText(f.annotation.value.value) && r == Trim(f.annotation.value.value)
  {
    if f.name == info.pkFieldName then info.pkColumnName
    else if f.annotation.Some? && HasText(f.annotation.value.value) then Trim(f.annotation.value.value)
    else f.name
  }

  /** underscoreName: an empty name gives ""; otherwise each upper-case letter becomes '_'
      and its lower-case letter, and every other character is copied. */
  method UnderscoreName(name: string) returns (r: string)
    ensures r == Snake(name)
  {
    if |name| == 0 {
      return "";
    }
    var result := "";
    var i := 0;
    while i < |name|
      invariant 0 <= i <= |name|
      invariant result == Snake(name[..i])
    {
      assert name[..i + 1][..i] == name[..i];
      var c := name[i];
      if IsUpper(c) {
        result := result + ['_', ToLowerChar(c)];
      } else {
        result := result + [c];
      }
      i := i + 1;
    }
    assert name[..i] == name;
    r := result;
  }

  /** The keys a name is registered under: its lower-case form, and its underscore form, which
      is a second key exactly when it differs. */
  function KeysOf(name: string): set<string>
  {
    {ToLower(name), Snake(name)}
  }

  lemma {:induction false} SnakeWithoutUpper(s: string)
    requires forall i :: 0 <= i < |s| ==> !IsUpper(s[i])
    ensures Snake(s) == s
  {
    if |s| > 0 {
      SnakeWithoutUpper(s[..|s| - 1]);
      assert s == s[..|s| - 1] + [s[|s| - 1]];
    }
  }

  lemma {:induction false} CountUpperPositive(s: string, i: nat)
    requires i < |s| && IsUpper(s[i])
    ensures CountUpper(s) > 0
  {
    if i < |s| - 1 {
      CountUpperPositive(s[..|s| - 1], i);
    }
  }

  /** The two keys coincide exactly when the name has no upper-case letter; only then does
      initialize register a single key. */
  lemma OneKeyIffNoUpper(name: string)
    ensures ToLower(name) == Snake(name) <==> forall i :: 0 <= i < |name| ==> !IsUpper(name[i])
  {
    if forall i :: 0 <= i < |name| ==> !IsUpper(name[i]) {
      SnakeWithoutUpper(name);
      assert ToLower(name) == name;
    } else {
      var i :| 0 <= i < |name| && IsUpper(name[i]);
      CountUpperPositive(name, i);
      SnakeLength(name);
    }
  }

  /** One field's registration: its lower-case key, then its underscore key when that
      differs, both to the same descriptor. */
  function PutKeys(m: map<string, Option<Property>>, name: string, pd: Option<Property>): (r: map<string, Option<Property>>)
    ensures r.Keys == m.Keys + KeysOf(name)
    ensures forall k :: k in KeysOf(name) ==> r[k] == pd
    ensures forall k :: k in m && k !in KeysOf(name) ==> r[k] == m[k]
  {
    var lower := ToLower(name);
    var underscore := Snake(name);
    var withLower := m[lower := pd];
    if lower != underscore then withLower[underscore := pd] else withLower
  }

  /** One registration of initialize, in order: the key name, the descriptor it leads to, and
      the property name recorded in mappedProperties. */
  datatype Entry = Entry(key: string, descriptor: Option<Property>, property: string)

  /** The entries of a class: one per TableInfo field when getTableInfo succeeds (the
      descriptor may be null), otherwise one per writable bean property. */
  function Entries(bean: BeanClass): (r: seq<Entry>)
    ensures bean.table.Some? ==> |r| == |bean.table.value.fields|
  {
    match bean.table
    case Some(info) =>
      seq(|info.fields|, i requires 0 <= i < |info.fields| =>
        Entry(KeyName(info, info.fields[i]), FindProperty(bean.properties, info.fields[i].name), info.fields[i].name))
    case None =>
      var writable := Writable(bean.properties);
      seq(|writable|, i requires 0 <= i < |writable| => Entry(writable[i].name, Some(writable[i]), writable[i].name))
  }

  /** The descriptors with a write method, in order. */
  function Writable(props: seq<Property>): (r: seq<Property>)
    ensures forall p :: p in r <==> p in props && p.writable
  {
    if |props| == 0 then []
    else if props[0].writable then [props[0]] + Writable(props[1..])
    else Writable(props[1..])
  }

  /** The key table after registering the entries in order. */
  function KeyTable(entries: seq<Entry>): map<string, Option<Property>>
  {
    if |entries| == 0 then map[]
    else
      var last := entries[|entries| - 1];
      PutKeys(KeyTable(entries[..|entries| - 1]), last.key, last.descriptor)
  }

  lemma KeyTableSnoc(entries: seq<Entry>, i: nat)
    requires i < |entries|
    ensures KeyTable(entries[..i + 1]) == PutKeys(KeyTable(entries[..i]), entries[i].key, entries[i].descriptor)
  {
    assert entries[..i + 1][..i] == entries[..i];
  }

  /** A key is in the table exactly when some entry registers it, and it leads to the
      descriptor of the LAST entry that does: a later field overwrites an earlier one. */
  lemma {:induction false} KeyTableLastWins(entries: seq<Entry>, k: string)
    ensures k in KeyTable(entries) <==> exists j :: 0 <= j < |entries| && k in KeysOf(entries[j].key)
    ensures forall j :: 0 <= j < |entries| && k in KeysOf(entries[j].key)
                        && (forall l :: j < l < |entries| ==> k !in KeysOf(entries[l].key))
                        ==> KeyTable(entries)[k] == entries[j].descriptor
  {
    if |entries| > 0 {
      var prefix := entries[..|entries| - 1];
      KeyTableLastWins(prefix, k);
      forall j | 0 <= j < |prefix|
        ensures prefix[j] == entries[j]
      {
      }
    }
  }

  /** The property names initialize records: the TableInfo field names, or the writable
      property names. */
  function PropertyNames(bean: BeanClass): set<string>
  {
    Recorded(Entries(bean), |Entries(bean)|)
  }

  /** They are the TableInfo field names, or the names of the writable properties. */
  lemma PropertyNamesAre(bean: BeanClass)
    ensures bean.table.Some? ==>
      PropertyNames(bean) == set i | 0 <= i < |bean.table.value.fields| :: bean.table.value.fields[i].name
    ensures bean.table.None? ==> PropertyNames(bean) == set p | p in bean.properties && p.writable :: p.name
  {
    var es := Entries(bean);
    if bean.table.None? {
      var w := Writable(bean.properties);
      forall p | p in bean.properties && p.writable
        ensures p.name in PropertyNames(bean)
      {
        var j :| 0 <= j < |w| && w[j] == p;
        assert es[j].property == p.name;
      }
    } else {
      var fs := bean.table.value.fields;
      forall i | 0 <= i < |fs|
        ensures fs[i].name in PropertyNames(bean)
      {
        assert es[i].property == fs[i].name;
      }
    }
  }

  /** The property names of the first n registrations. */
  function Recorded(entries: seq<Entry>, n: nat): set<string>
    requires n <= |entries|
  {
    set j | 0 <= j < n :: entries[j].property
  }

  lemma RecordedSnoc(entries: seq<Entry>, i: nat)
    requires i < |entries|
    ensures Recorded(entries, i + 1) == Recorded(entries, i) + {entries[i].property}
  {
    assert entries[i].property in Recorded(entries, i + 1);
  }

  /** Every descriptor the key table leads to is a property initialize records. */
  predicate DescriptorsRecorded(fields: map<string, Option<Property>>, props: set<string>)
  {
    forall k :: k in fields && fields[k].Some? ==> fields[k].value.name in props
  }

  lemma {:induction false} KeyTableValues(entries: seq<Entry>, props: set<string>)
    requires forall j :: 0 <= j < |entries| && entries[j].descriptor.Some? ==> entries[j].descriptor.value.name in props
    ensures DescriptorsRecorded(KeyTable(entries), props)
  {
    if |entries| > 0 {
      KeyTableValues(entries[..|entries| - 1], props);
    }
  }

  lemma EntriesRecorded(bean: BeanClass)
    ensures DescriptorsRecorded(KeyTable(Entries(bean)), PropertyNames(bean))
  {
    var es := Entries(bean);
    forall j | 0 <= j < |es| && es[j].descriptor.Some?
      ensures es[j].descriptor.value.name in PropertyNames(bean)
    {
      if bean.table.Some? {
        var info := bean.table.value;
        assert es[j].descriptor.value.name == info.fields[j].name;
      } else {
        assert es[j].descriptor.value in bean.properties && es[j].descriptor.value.writable;
      }
    }
    KeyTableValues(es, PropertyNames(bean));
  }

  /** The key a column is looked up under: its label with the spaces deleted, lower-cased. */
  function ColumnKey(column: string): (r: string)
    ensures |r| <= |column|
    ensures forall i :: 0 <= i < |r| ==> r[i] != ' ' && !IsUpper(r[i])
  {
    ToLower(RemoveChar(column, ' '))
  }

  /** The property writes a row makes, column by column (indices from 1), or the failure of
      the first matched column whose property has no write method. Unmatched columns, and
      columns whose key leads to a null descriptor, are skipped. */
  function MapColumns(fields: map<string, Option<Property>>, columns: seq<string>): (r: Result<seq<(string, nat)>>)
    ensures r.Success? ==> forall a :: a in r.value ==>
      1 <= a.1 <= |columns| && ColumnKey(columns[a.1 - 1]) in fields
      && fields[ColumnKey(columns[a.1 - 1])] == Some(Property(a.0, true))
  {
    if |columns| == 0 then Success([])
    else
      var n := |columns|;
      match MapColumns(fields, columns[..n - 1])
      case Failure(e) => Failure(e)
      case Success(writes) =>
        var key := ColumnKey(columns[n - 1]);
        if key !in fields || fields[key].None? then Success(writes)
        else if !fields[key].value.writable then
          Failure("Unable to map column '" + columns[n - 1] + "' to property '" + fields[key].value.name + "'")
        else Success(writes + [(fields[key].value.name, n)])
  }

  /** Every column whose key leads to a writable descriptor is written to that property. */
  lemma {:induction false} MatchedColumnsAreWritten(fields: map<string, Option<Property>>, columns: seq<string>, i: nat)
    requires i < |columns| && MapColumns(fields, columns).Success?
    requires ColumnKey(columns[i]) in fields && fields[ColumnKey(columns[i])].Some?
    ensures fields[ColumnKey(columns[i])].value.writable
    ensures (fields[ColumnKey(columns[i])].value.name, i + 1) in MapColumns(fields, columns).value
  {
    var n := |columns|;
    var prefix := columns[..n - 1];
    if i < n - 1 {
      assert prefix[i] == columns[i];
      MatchedColumnsAreWritten(fields, prefix, i);
    }
  }

  /** The properties a row writes. */
  function Populated(writes: seq<(string, nat)>): set<string>
  {
    set a | a in writes :: a.0
  }

  /** mapRow: the instance cannot be made without a mapped class; with checkFullyPopulated,
      the written properties must be exactly the recorded ones. */
  function MapRowSpec(mappedClass: Option<string>, fields: Option<map<string, Option<Property>>>,
                      props: Option<set<string>>, check: bool, columns: seq<string>): (r: Result<seq<(string, nat)>>)
    ensures mappedClass.None? ==> r.Failure?
    ensures r.Success? ==> MapColumns(if fields.Some? then fields.value else map[], columns) == r
    ensures r.Success? && check ==> props.Some? && Populated(r.value) == props.value
  {
    if mappedClass.None? then Failure("Mapped class was not specified")
    else
      var table := if fields.Some? then fields.value else map[];
      match MapColumns(table, columns)
      case Failure(e) => Failure(e)
      case Success(writes) =>
        if check && (props.None? || Populated(writes) != props.value) then
          Failure("Given ResultSet does not contain all fields necessary to populate object of " + mappedClass.value)
        else Success(writes)
  }

  /** Since every descriptor is a recorded property, the strict check fails exactly when some
      recorded property is written by no column. */
  lemma StrictCheckIff(fields: map<string, Option<Property>>, props: set<string>, columns: seq<string>)
    requires DescriptorsRecorded(fields, props) && MapColumns(fields, columns).Success?
    ensures Populated(MapColumns(fields, columns).value) <= props
    ensures Populated(MapColumns(fields, columns).value) != props
            <==> exists p :: p in props && p !in Populated(MapColumns(fields, columns).value)
  {
    var writes := MapColumns(fields, columns).value;
    forall p | p in Populated(writes)
      ensures p in props
    {
      var a :| a in writes && a.0 == p;
    }
  }

  class MyBeanPropertyRowMapper {
    var mappedClass: Option<string>
    var checkFullyPopulated: bool
    var mappedFields: Option<map<string, Option<Property>>>
    var mappedProperties: Option<set<string>>

    /** The class is set together with its key table and property set, and the table only
        leads to recorded properties. */
    ghost predicate Valid()
      reads this
    {
      && (mappedClass.None? <==> mappedFields.None?)
      && (mappedClass.None? <==> mappedProperties.None?)
      && (mappedFields.Some? ==> DescriptorsRecorded(mappedFields.value, mappedProperties.value))
    }

    /** The bean-style constructor: no class yet. */
    constructor ()
      ensures Valid()
      ensures mappedClass.None? && mappedFields.None? && mappedProperties.None? && !checkFullyPopulated
    {
      mappedClass, checkFullyPopulated, mappedFields, mappedProperties := None, false, None, None;
    }

    /** MyBeanPropertyRowMapper(mappedClass, checkFullyPopulated); the one-argument form
        passes false. */
    constructor ForClass(bean: BeanClass, check: bool)
      ensures Valid()
      ensures mappedClass == Some(bean.name) && checkFullyPopulated == check
      ensures mappedFields == Some(KeyTable(Entries(bean))) && mappedProperties == Some(PropertyNames(bean))
    {
      checkFullyPopulated := false;
      mappedClass, mappedFields, mappedProperties := None, None, None;
      new;
      Initialize(bean);
      checkFullyPopulated := check;
    }

    /** initialize: registers every entry of the class in order. */
    method Initialize(bean: BeanClass)
      modifies this
      ensures Valid()
      ensures mappedClass == Some(bean.name) && checkFullyPopulated == old(checkFullyPopulated)
      ensures mappedFields == Some(KeyTable(Entries(bean))) && mappedProperties == Some(PropertyNames(bean))
    {
      var entries := Entries(bean);
      var fields: map<string, Option<Property>> := map[];
      var props: set<string> := {};
      var i := 0;
      while i < |entries|
        invariant 0 <= i <= |entries|
        invariant fields == KeyTable(entries[..i])
        invariant props == Recorded(entries, i)
        invariant unchanged(this)
      {
        var name := entries[i].key;
        var pd := entries[i].descriptor;
        var lowerCaseName := ToLower(name);
        fields := fields[lowerCaseName := pd];
        var underscoreName := UnderscoreName(name);
        if lowerCaseName != underscoreName {
          fields := fields[underscoreName := pd];
        }
        KeyTableSnoc(entries, i);
        assert fields == PutKeys(KeyTable(entries[..i]), name, pd);
        props := props + {entries[i].property};
        RecordedSnoc(entries, i);
        i := i + 1;
      }
      assert entries[..i] == entries;
      EntriesRecorded(bean);
      mappedClass := Some(bean.name);
      mappedFields := Some(fields);
      mappedProperties := Some(props);
    }

    /** setMappedClass: the first call initializes; a later call with another class is
        refused and changes nothing, and one with the same class does nothing. */
    method SetMappedClass(bean: BeanClass) returns (r: Result<()>)
      requires Valid()
      modifies this
      ensures Valid()
      ensures r.Failure? <==> old(mappedClass).Some? && old(mappedClass).value != bean.name
      ensures old(mappedClass).None? ==>
        mappedClass == Some(bean.name) && mappedFields == Some(KeyTable(Entries(bean)))
        && mappedProperties == Some(PropertyNames(bean))
      ensures old(mappedClass).Some? ==> unchanged(this)
    {
      if mappedClass.None? {
        Initialize(bean);
        return Success(());
      }
      if mappedClass.value != bean.name {
        return Failure("The mapped class can not be reassigned to map to " + bean.name
          + " since it is already providing mapping for " + mappedClass.value);
      }
      return Success(());
    }

    method SetCheckFullyPopulated(check: bool)
      requires Valid()
      modifies this
      ensures Valid()
      ensures checkFullyPopulated == check
      ensures mappedClass == old(mappedClass) && mappedFields == old(mappedFields)
      ensures mappedProperties == old(mappedProperties)
    {
      checkFullyPopulated := check;
    }

    /** suppressProperty: drops the property's lower-case and underscore keys, if the table
        exists. */
    method SuppressProperty(propertyName: string)
      requires Valid()
      modifies this
      ensures Valid()
      ensures mappedFields == if old(mappedFields).None? then None
                             else Some(old(mappedFields).value - KeysOf(propertyName))
      ensures mappedClass == old(mappedClass) && mappedProperties == old(mappedProperties)
      ensures checkFullyPopulated == old(checkFullyPopulated)
    {
      if mappedFields.Some? {
        var underscore := UnderscoreName(propertyName);
        mappedFields := Some(mappedFields.value - {ToLower(propertyName)} - {underscore});
        assert mappedFields.value == old(mappedFields).value - KeysOf(propertyName);
      }
    }

    /** mapRow's column loop and the fully-populated check. */
    method MapRow(columns: seq<string>) returns (r: Result<seq<(string, nat)>>)
      requires Valid()
      ensures r == MapRowSpec(mappedClass, mappedFields, mappedProperties, checkFullyPopulated, columns)
    {
      if mappedClass.None? {
        return Failure("Mapped class was not specified");
      }
      var fields := if mappedFields.Some? then mappedFields.value else map[];
      var populated: set<string> := {};
      var writes: seq<(string, nat)> := [];
      var index := 1;
      while index <= |columns|
        invariant 1 <= index <= |columns| + 1
        invariant MapColumns(fields, columns[..index - 1]) == Success(writes)
        invariant populated == Populated(writes)
      {
        assert columns[..index][..index - 1] == columns[..index - 1];
        var column := columns[index - 1];
        var field := ColumnKey(column);
        if field in fields && fields[field].Some? {
          var pd := fields[field].value;
          if !pd.writable {
            r := Failure("Unable to map column '" + column + "' to property '" + pd.name + "'");
            assert MapColumns(fields, columns[..index]) == r;
            MapColumnsFailureStays(fields, columns, index);
            return;
          }
          writes := writes + [(pd.name, index)];
          populated := populated + {pd.name};
        }
        index := index + 1;
      }
      assert columns[..index - 1] == columns;
      if checkFullyPopulated && populated != mappedProperties.value {
        return Failure("Given ResultSet does not contain all fields necessary to populate object of " + mappedClass.value);
      }
      r := Success(writes);
    }
  }

  /** A failure on a prefix of the columns is the failure of the whole row. */
  lemma {:induction false} MapColumnsFailureStays(fields: map<string, Option<Property>>, columns: seq<string>, n: nat)
    requires n <= |columns| && MapColumns(fields, columns[..n]).Failure?
    ensures MapColumns(fields, columns) == MapColumns(fields, columns[..n])
    decreases |columns| - n
  {
    if n < |columns| {
      assert columns[..n + 1][..n] == columns[..n];
      MapColumnsFailureStays(fields, columns, n + 1);
    } else {
      assert columns[..n] == columns;
    }
  }

  /** A column finds a field registered under a key name when its label, spaces deleted,
      equals the name in any letter case or the name's underscore form; for a field no later
      field overrides, it leads to that field's descriptor. */
  lemma ColumnFindsField(bean: BeanClass, j: nat, column: string)
    requires j < |Entries(bean)|
    requires ColumnKey(column) in KeysOf(Entries(bean)[j].key)
    requires forall l :: j < l < |Entries(bean)| ==> ColumnKey(column) !in KeysOf(Entries(bean)[l].key)
    ensures ColumnKey(column) in KeyTable(Entries(bean))
    ensures KeyTable(Entries(bean))[ColumnKey(column)] == Entries(bean)[j].descriptor
  {
    KeyTableLastWins(Entries(bean), ColumnKey(column));
  }
}
