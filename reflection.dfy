/** MyReflectionUtils: the persistent fields of a class, its own first, then the inherited
    ones it does not redeclare. */
module Reflection {
  import opened Wrappers
  import opened Metadata

  /** A class with its declared fields, in declaration order, and its superclass (None for
      Object, interfaces and primitive types). */
  datatype ClassDecl = ClassDecl(name: string, declaredFields: seq<FieldDecl>, superclass: Option<ClassDecl>)

  /** The names of a list of fields. */
  function Names(fields: seq<FieldDecl>): set<string>
  {
    set f | f in fields :: f.name
  }

  predicate DistinctNames(fields: seq<FieldDecl>)
  {
    forall i, j :: 0 <= i < j < |fields| ==> fields[i].name != fields[j].name
  }

  /** The fields neither static nor transient, in order. */
  function Persistent(fields: seq<FieldDecl>): (r: seq<FieldDecl>)
    ensures forall f :: f in r <==> f in fields && !f.isStatic && !f.isTransient
    ensures DistinctNames(fields) ==> DistinctNames(r)
  {
    if |fields| == 0 then []
    else if !fields[0].isStatic && !fields[0].isTransient then
      var rest := Persistent(fields[1..]);
      assert forall f :: f in rest ==> f in fields[1..];
      [fields[0]] + rest
    else Persistent(fields[1..])
  }

  /** The inherited fields whose names the list does not have, in order. */
  function NotRedeclared(names: set<string>, superFields: seq<FieldDecl>): (r: seq<FieldDecl>)
    ensures |r| <= |superFields|
  {
    if |superFields| == 0 then []
    else if superFields[0].name !in names then [superFields[0]] + NotRedeclared(names, superFields[1..])
    else NotRedeclared(names, superFields[1..])
  }

  /** Exactly the inherited fields whose names are not taken are kept, and distinct names
      stay distinct. */
  lemma {:induction false} NotRedeclaredKeeps(names: set<string>, superFields: seq<FieldDecl>)
    ensures forall f :: f in NotRedeclared(names, superFields) <==> f in superFields && f.name !in names
    ensures DistinctNames(superFields) ==> DistinctNames(NotRedeclared(names, superFields))
  {
    if |superFields| > 0 {
      NotRedeclaredKeeps(names, superFields[1..]);
      var rest := NotRedeclared(names, superFields[1..]);
      assert forall f :: f in superFields <==> f == superFields[0] || f in superFields[1..];
      if DistinctNames(superFields) {
        assert DistinctNames(superFields[1..]);
        assert forall f :: f in rest ==> f in superFields[1..];
      }
    }
  }

  /** Java forbids two fields of one name in one class; Collectors.toMap in
      excludeOverrideSuperField relies on it. */
  predicate WellFormed(c: ClassDecl)
  {
    DistinctNames(c.declaredFields) && (c.superclass.Some? ==> WellFormed(c.superclass.value))
  }

  /** getFieldList: null and classes without a superclass have no fields; any other class
      has its own persistent fields followed by the inherited ones it does not redeclare. */
  function GetFieldList(c: Option<ClassDecl>): (r: seq<FieldDecl>)
    ensures c.None? || c.value.superclass.None? ==> r == []
    ensures c.Some? && c.value.superclass.Some? ==> Persistent(c.value.declaredFields) <= r
    ensures forall f :: f in r ==> !f.isStatic && !f.isTransient
  {
    match c
    case None => []
    case Some(k) =>
      if k.superclass.None? then []
      else
        var own := Persistent(k.declaredFields);
        NotRedeclaredKeeps(Names(own), GetFieldList(k.superclass));
        own + NotRedeclared(Names(own), GetFieldList(k.superclass))
  }

  /** No field listed is static or transient, and no two share a name: a redeclared field
      hides the inherited one. */
  lemma {:induction false} FieldListIsPersistentAndDistinct(c: Option<ClassDecl>)
    requires c.Some? ==> WellFormed(c.value)
    ensures forall f :: f in GetFieldList(c) ==> !f.isStatic && !f.isTransient
    ensures DistinctNames(GetFieldList(c))
  {
    if c.Some? && c.value.superclass.Some? {
      var k := c.value;
      FieldListIsPersistentAndDistinct(k.superclass);
      var own := Persistent(k.declaredFields);
      NotRedeclaredKeeps(Names(own), GetFieldList(k.superclass));
      var inherited := NotRedeclared(Names(own), GetFieldList(k.superclass));
      var r := own + inherited;
      forall i, j | 0 <= i < j < |r|
        ensures r[i].name != r[j].name
      {
        if i < |own| && j >= |own| {
          assert r[i] in own;
          assert r[j] in inherited;
        }
      }
    }
  }

  /** The names listed are the class's own persistent field names together with those its
      ancestors list: nothing inherited is lost, only replaced by the redeclaration. */
  lemma FieldListNames(k: ClassDecl)
    requires k.superclass.Some?
    ensures Names(GetFieldList(Some(k))) == Names(Persistent(k.declaredFields)) + Names(GetFieldList(k.superclass))
  {
    var own := Persistent(k.declaredFields);
    var sup := GetFieldList(k.superclass);
    var r := GetFieldList(Some(k));
    NotRedeclaredKeeps(Names(own), sup);
    forall n | n in Names(sup) && n !in Names(own)
      ensures n in Names(r)
    {
      var f :| f in sup && f.name == n;
      assert f in NotRedeclared(Names(own), sup);
    }
    forall n | n in Names(r)
      ensures n in Names(own) + Names(sup)
    {
      var f :| f in r && f.name == n;
    }
  }

  /** A java.util.List the caller owns and excludeOverrideSuperField appends to. */
  class FieldList {
    var elements: seq<FieldDecl>

    constructor (elements: seq<FieldDecl>)
      ensures this.elements == elements
    {
      this.elements := elements;
    }
  }

  /** excludeOverrideSuperField: appends, in order, every field of the super list whose name
      the list does not already have, and returns that same list. */
  method ExcludeOverrideSuperField(fieldList: FieldList, superFieldList: seq<FieldDecl>) returns (r: FieldList)
    requires DistinctNames(fieldList.elements)
    modifies fieldList
    ensures r == fieldList
    ensures fieldList.elements
      == old(fieldList.elements) + NotRedeclared(Names(old(fieldList.elements)), superFieldList)
  {
    ghost var initial := fieldList.elements;
    var fieldMap := Names(fieldList.elements);
    var i := 0;
    while i < |superFieldList|
      invariant 0 <= i <= |superFieldList|
      invariant fieldList.elements == initial + NotRedeclared(fieldMap, superFieldList[..i])
    {
      NotRedeclaredSnoc(fieldMap, superFieldList, i);
      if superFieldList[i].name !in fieldMap {
        fieldList.elements := fieldList.elements + [superFieldList[i]];
      }
      i := i + 1;
    }
    assert superFieldList[..i] == superFieldList;
    r := fieldList;
  }

  lemma {:induction false} NotRedeclaredConcat(names: set<string>, a: seq<FieldDecl>, b: seq<FieldDecl>)
    ensures NotRedeclared(names, a + b) == NotRedeclared(names, a) + NotRedeclared(names, b)
    decreases |a|
  {
    if |a| > 0 {
      assert (a + b)[1..] == a[1..] + b;
      NotRedeclaredConcat(names, a[1..], b);
    } else {
      assert a + b == b;
    }
  }

  lemma NotRedeclaredSnoc(names: set<string>, s: seq<FieldDecl>, i: nat)
    requires i < |s|
    ensures NotRedeclared(names, s[..i + 1])
      == NotRedeclared(names, s[..i]) + (if s[i].name !in names then [s[i]] else [])
  {
    assert s[..i + 1] == s[..i] + [s[i]];
    NotRedeclaredConcat(names, s[..i], [s[i]]);
  }

  /** getFieldList's recursion, building the list object as the source does: the filtered
      own fields, then the append in place. */
  method FieldListOf(c: Option<ClassDecl>) returns (r: seq<FieldDecl>)
    requires c.Some? ==> WellFormed(c.value)
    ensures r == GetFieldList(c)
    decreases c
  {
    if c.None? {
      return [];
    }
    var k := c.value;
    if k.superclass.None? {
      return [];
    }
    var fieldList := new FieldList(Persistent(k.declaredFields));
    var superList := FieldListOf(k.superclass);
    var result := ExcludeOverrideSuperField(fieldList, superList);
    r := result.elements;
  }
}
