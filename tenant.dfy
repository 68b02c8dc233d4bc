/** Tenant plumbing: the per-thread TenantContext and the parameter source that binds the
    tenant placeholder. */
module Tenant {
  import opened Wrappers
  import opened Values

  /** What a TenantContext holds for the current thread. An unset tenant id reads as null. */
  datatype ContextState = ContextState(tenantId: Value, skipped: bool)

  /** TenantContext: the two thread-local slots of one thread. */
  class TenantContext {
    var tenantId: Value
    var skipped: bool

    /** A fresh thread: no tenant id, not skipped. */
    constructor ()
      ensures tenantId == Null && !skipped
    {
      tenantId := Null;
      skipped := false;
    }

    function State(): ContextState
      reads this
    {
      ContextState(tenantId, skipped)
    }

    /** setTenantId: only the tenant slot changes. */
    method SetTenantId(id: Value)
      modifies this
      ensures tenantId == id && skipped == old(skipped)
    {
      tenantId := id;
    }

    /** getTenantId. */
    function GetTenantId(): (r: Value)
      reads this
      ensures r == State().tenantId
    {
      tenantId
    }

    /** clearTenantId: the slot reads null again; the skip switch is untouched. */
    method ClearTenantId()
      modifies this
      ensures tenantId == Null && skipped == old(skipped)
    {
      tenantId := Null;
    }

    /** skip: the tenant id is untouched. */
    method Skip()
      modifies this
      ensures skipped && tenantId == old(tenantId)
    {
      skipped := true;
    }

    /** restore: the skip slot is removed, not put back to its earlier value. */
    method Restore()
      modifies this
      ensures !skipped && tenantId == old(tenantId)
    {
      skipped := false;
    }

    /** isSkipped. */
    function IsSkipped(): (r: bool)
      reads this
      ensures r <==> State().skipped
    {
      skipped
    }

    /** withoutTenant(Supplier): the body sees the context with skip set and its result is
        returned; afterwards skip is cleared even if it was set before the call. The body is
        a function of the context it runs in. */
    method WithoutTenant<T>(body: ContextState -> T) returns (r: T)
      modifies this
      ensures r == body(ContextState(old(tenantId), true))
      ensures !skipped && tenantId == old(tenantId)
    {
      Skip();
      r := body(State());
      Restore();
    }

    /** withoutTenant(Runnable): as above, with no result. */
    method WithoutTenantRun()
      modifies this
      ensures !skipped && tenantId == old(tenantId)
    {
      Skip();
      Restore();
    }

    /** clear: both slots are reset. */
    method Clear()
      modifies this
      ensures tenantId == Null && !skipped
    {
      tenantId := Null;
      skipped := false;
    }
  }

  /** SqlParameterSource.TYPE_UNKNOWN (Integer.MIN_VALUE). */
  const TYPE_UNKNOWN: int := -2147483648

  /** A parameter source: a map-backed source standing for the delegates the DAO builds
      (MapSqlParameterSource and friends), or a TenantAwareSqlParameterSource around another
      source. */
  datatype ParameterSource =
    | MapSource(values: map<string, Value>, sqlTypes: map<string, int>, typeNames: map<string, string>)
    | TenantAware(delegate: ParameterSource, tenantParamName: string, tenantId: Value)

  /** The map source at the bottom of a chain of wrappers. */
  function Base(src: ParameterSource): (b: ParameterSource)
    ensures b.MapSource?
  {
    match src
    case MapSource(_, _, _) => src
    case TenantAware(delegate, _, _) => Base(delegate)
  }

  /** The tenant parameter names the wrappers of a chain answer for. */
  function WrapperNames(src: ParameterSource): set<string>
  {
    match src
    case MapSource(_, _, _) => {}
    case TenantAware(delegate, p, _) => {p} + WrapperNames(delegate)
  }

  /** hasValue. */
  function HasValue(src: ParameterSource, name: string): (r: bool)
    ensures r <==> name in WrapperNames(src) || name in Base(src).values
  {
    match src
    case MapSource(values, _, _) => name in values
    case TenantAware(delegate, p, _) => p == name || HasValue(delegate, name)
  }

  /** getValue; a map source throws IllegalArgumentException for an unknown name. */
  function GetValue(src: ParameterSource, name: string): (r: Result<Value>)
    ensures r.Success? <==> HasValue(src, name)
    ensures name !in WrapperNames(src) && name in Base(src).values ==> r == Success(Base(src).values[name])
  {
    match src
    case MapSource(values, _, _) =>
      if name in values then Success(values[name]) else Failure("No value registered for key '" + name + "'")
    case TenantAware(delegate, p, id) =>
      if p == name then Success(id) else GetValue(delegate, name)
  }

  /** getSqlType. */
  function GetSqlType(src: ParameterSource, name: string): (r: int)
    ensures name in WrapperNames(src) || name !in Base(src).sqlTypes ==> r == TYPE_UNKNOWN
    ensures name !in WrapperNames(src) && name in Base(src).sqlTypes ==> r == Base(src).sqlTypes[name]
  {
    match src
    case MapSource(_, sqlTypes, _) => if name in sqlTypes then sqlTypes[name] else TYPE_UNKNOWN
    case TenantAware(delegate, p, _) => if p == name then TYPE_UNKNOWN else GetSqlType(delegate, name)
  }

  /** getTypeName; None is null. */
  function GetTypeName(src: ParameterSource, name: string): (r: Option<string>)
    ensures r.Some? <==> name !in WrapperNames(src) && name in Base(src).typeNames
    ensures r.Some? ==> r.value == Base(src).typeNames[name]
  {
    match src
    case MapSource(_, _, typeNames) => if name in typeNames then Some(typeNames[name]) else None
    case TenantAware(delegate, p, _) => if p == name then None else GetTypeName(delegate, name)
  }

  /** The wrapper answers for the tenant name whatever the delegate holds, shadows any value
      the delegate has under that name, and passes every other name through. */
  lemma TenantOverlay(delegate: ParameterSource, p: string, id: Value, name: string)
    ensures var src := TenantAware(delegate, p, id);
      && (name == p ==> HasValue(src, name) && GetValue(src, name) == Success(id)
                        && GetSqlType(src, name) == TYPE_UNKNOWN && GetTypeName(src, name) == None)
      && (name != p ==> HasValue(src, name) == HasValue(delegate, name)
                        && GetValue(src, name) == GetValue(delegate, name)
                        && GetSqlType(src, name) == GetSqlType(delegate, name)
                        && GetTypeName(src, name) == GetTypeName(delegate, name))
  {
  }

  /** Wrapping a map source behaves as the same map with the tenant entry put in and its
      type information dropped. */
  lemma TenantOverlayIsMapUpdate(values: map<string, Value>, sqlTypes: map<string, int>,
                                 typeNames: map<string, string>, p: string, id: Value, name: string)
    ensures var wrapped := TenantAware(MapSource(values, sqlTypes, typeNames), p, id);
      var updated := MapSource(values[p := id], sqlTypes - {p}, typeNames - {p});
      && HasValue(wrapped, name) == HasValue(updated, name)
      && GetValue(wrapped, name) == GetValue(updated, name)
      && GetSqlType(wrapped, name) == GetSqlType(updated, name)
      && GetTypeName(wrapped, name) == GetTypeName(updated, name)
  {
  }
}
