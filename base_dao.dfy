/** BaseDaoImpl's decisions: which rewrite a query gets, the tenant suffix of UPDATE and
    logical DELETE statements, the tenant branch of insertPO, the tenant-field fill, and the
    chunking of batch inserts. JDBC execution is not part of this model. */
module BaseDao {
  import opened Wrappers
  import opened Text
  import opened Values
  import opened SqlTree
  import opened TableCache
  import opened ConditionEngine
  import opened DynamicSqlParser
  import opened Tenant
  import opened CommonUtils

  /** Where the DAO gets the tenant id from: the answer of a registered TenantIdProvider bean
      (`None` when no bean is registered), and the calling thread's TenantContext. */
  datatype TenantSource = TenantSource(provider: Option<Value>, context: ContextState)

  /** getCurrentTenantId: a registered provider wins, even when it answers null. */
  function CurrentTenantId(src: TenantSource): (r: Value)
    ensures src.provider.Some? ==> r == src.provider.value
    ensures src.provider.None? ==> r == src.context.tenantId
  {
    match src.provider
    case Some(id) => id
    case None => src.context.tenantId
  }

  /** The rewritten SQL and the parameter source it runs with. */
  datatype ConditionResult = ConditionResult(sql: string, sps: ParameterSource)

  /** The named placeholder the tenant predicates use. */
  const PLACEHOLDER: string := ":" + TENANT_PARAM_NAME

  /** applyConditions takes the unified path: tenant isolation on, not skipped, and a
      non-null tenant id. */
  predicate UsesUnifiedPath(env: Env, src: TenantSource)
  {
    env.tenantEnabled && !src.context.skipped && CurrentTenantId(src) != Null
  }

  /** applyConditions. */
  function ApplyConditions(env: Env, lib: SqlLibrary, src: TenantSource, sql: string, sps: ParameterSource): (r: ConditionResult)
    ensures !UsesUnifiedPath(env, src) ==> r == ConditionResult(EntryRewrite(DeleteOnly, env, lib, sql), sps)
    ensures UsesUnifiedPath(env, src) ==> r.sql == EntryRewrite(Unified, env, lib, sql)
    ensures r.sps == sps || r.sps == TenantAware(sps, TENANT_PARAM_NAME, CurrentTenantId(src))
  {
    var needTenant := env.tenantEnabled && !src.context.skipped;
    var tenantId := if needTenant then CurrentTenantId(src) else Null;
    if tenantId != Null then
      var processed := EntryRewrite(Unified, env, lib, sql);
      if Contains(processed, PLACEHOLDER) then
        ConditionResult(processed, TenantAware(sps, TENANT_PARAM_NAME, tenantId))
      else ConditionResult(processed, sps)
    else ConditionResult(EntryRewrite(DeleteOnly, env, lib, sql), sps)
  }

  /** Whenever the SQL a query runs with mentions the tenant placeholder and the DAO took
      the tenant path, the placeholder is bound to the (non-null) current tenant id; the
      delete-only path never changes the parameters. */
  lemma ApplyConditionsBindsPlaceholder(env: Env, lib: SqlLibrary, src: TenantSource, sql: string, sps: ParameterSource)
    ensures var r := ApplyConditions(env, lib, src, sql, sps);
      && (UsesUnifiedPath(env, src) && Contains(r.sql, PLACEHOLDER) ==>
            GetValue(r.sps, TENANT_PARAM_NAME) == Success(CurrentTenantId(src)) && CurrentTenantId(src) != Null)
      && (!UsesUnifiedPath(env, src) ==> r.sps == sps)
      && (r.sps != sps ==> Contains(r.sql, PLACEHOLDER))
  {
  }

  /** getWriteTenantId: null when tenant isolation is off, skipped, or the table has no
      tenant column; the current tenant id otherwise. */
  function GetWriteTenantId(env: Env, src: TenantSource, tableName: string): (r: Value)
    ensures !env.tenantEnabled || src.context.skipped || !env.registry.HasTenantColumn(tableName) ==> r == Null
    ensures env.tenantEnabled && !src.context.skipped && env.registry.HasTenantColumn(tableName) ==> r == CurrentTenantId(src)
  {
    if !env.tenantEnabled || src.context.skipped then Null
    else if !env.registry.HasTenantColumn(tableName) then Null
    else CurrentTenantId(src)
  }

  /** The predicate appended to UPDATE and logical DELETE statements. */
  function WriteSuffix(tenantColumn: string): string
  {
    " AND " + tenantColumn + " = " + PLACEHOLDER
  }

  /** applyWriteConditions. */
  function ApplyWriteConditions(env: Env, src: TenantSource, sql: string, sps: ParameterSource, tableName: string): (r: ConditionResult)
    ensures GetWriteTenantId(env, src, tableName) == Null ==> r == ConditionResult(sql, sps)
    ensures GetWriteTenantId(env, src, tableName) != Null ==>
      r == ConditionResult(sql + WriteSuffix(env.tenantColumn), TenantAware(sps, TENANT_PARAM_NAME, GetWriteTenantId(env, src, tableName)))
  {
    var tenantId := GetWriteTenantId(env, src, tableName);
    if tenantId == Null then ConditionResult(sql, sps)
    else ConditionResult(sql + WriteSuffix(env.tenantColumn), TenantAware(sps, TENANT_PARAM_NAME, tenantId))
  }

  /** A write statement is changed only for a tenant table under an active, non-null tenant;
      the original statement is then a prefix, the placeholder is present and it is bound to
      that tenant, while every other parameter keeps its value. */
  lemma WriteConditionsBindPlaceholder(env: Env, src: TenantSource, sql: string, sps: ParameterSource, tableName: string, name: string)
    ensures var r := ApplyWriteConditions(env, src, sql, sps, tableName);
      r.sql != sql ==>
        && env.tenantEnabled && !src.context.skipped && env.registry.HasTenantColumn(tableName)
        && StartsWith(r.sql, sql)
        && Contains(r.sql, PLACEHOLDER)
        && GetValue(r.sps, TENANT_PARAM_NAME) == Success(CurrentTenantId(src))
        && CurrentTenantId(src) != Null
        && (name != TENANT_PARAM_NAME ==> GetValue(r.sps, name) == GetValue(sps, name))
  {
    var r := ApplyWriteConditions(env, src, sql, sps, tableName);
    if r.sql != sql {
      var mid := " AND " + env.tenantColumn + " = ";
      assert r.sql == sql + mid + PLACEHOLDER + "";
      ContainsMiddle(sql + mid, PLACEHOLDER, "");
      assert r.sql[..|sql|] == sql;
    }
  }

  /** A statement run once per element of a batch, with one parameter source per element. */
  datatype BatchStatement = BatchStatement(sql: string, rows: seq<ParameterSource>)

  /** The source delByIds builds for one id: the primary key field bound to it. */
  function IdSource(pkFieldName: string, id: Value): (r: ParameterSource)
    ensures GetValue(r, pkFieldName) == Success(id)
  {
    MapSource(map[pkFieldName := id], map[], map[])
  }

  /** delByIds: with a non-null write tenant id the tenant suffix is appended once and every
      id's source is wrapped to bind the placeholder; otherwise each id gets a plain source.
      Row by row this is applyWriteConditions on the id's own source. */
  function DelByIdsBatch(env: Env, src: TenantSource, tableName: string, sql: string, pkFieldName: string, ids: seq<Value>): (r: BatchStatement)
    ensures |r.rows| == |ids|
    ensures forall k :: 0 <= k < |ids| ==>
      ConditionResult(r.sql, r.rows[k]) == ApplyWriteConditions(env, src, sql, IdSource(pkFieldName, ids[k]), tableName)
  {
    var tenantId := GetWriteTenantId(env, src, tableName);
    if tenantId != Null then
      BatchStatement(sql + WriteSuffix(env.tenantColumn),
                     seq(|ids|, k requires 0 <= k < |ids| => TenantAware(IdSource(pkFieldName, ids[k]), TENANT_PARAM_NAME, tenantId)))
    else BatchStatement(sql, seq(|ids|, k requires 0 <= k < |ids| => IdSource(pkFieldName, ids[k])))
  }

  /** delByIds's loops over the ids. */
  method DelByIds(env: Env, src: TenantSource, tableName: string, sql: string, pkFieldName: string, ids: seq<Value>) returns (r: BatchStatement)
    ensures r == DelByIdsBatch(env, src, tableName, sql, pkFieldName, ids)
  {
    var stmt := sql;
    var tenantId := GetWriteTenantId(env, src, tableName);
    var params: seq<ParameterSource> := [];
    if tenantId != Null {
      stmt := sql + " AND " + env.tenantColumn + " = :" + TENANT_PARAM_NAME;
      for k := 0 to |ids|
        invariant |params| == k
        invariant forall j :: 0 <= j < k ==> params[j] == TenantAware(IdSource(pkFieldName, ids[j]), TENANT_PARAM_NAME, tenantId)
      {
        params := params + [TenantAware(IdSource(pkFieldName, ids[k]), TENANT_PARAM_NAME, tenantId)];
      }
    } else {
      for k := 0 to |ids|
        invariant |params| == k
        invariant forall j :: 0 <= j < k ==> params[j] == IdSource(pkFieldName, ids[j])
      {
        params := params + [IdSource(pkFieldName, ids[k])];
      }
    }
    r := BatchStatement(stmt, params);
  }

  /** Every row of delByIds deletes its own id; under a tenant, each row also binds the
      placeholder to that tenant and the statement ends with the tenant predicate. */
  lemma DelByIdsBindsEachRow(env: Env, src: TenantSource, tableName: string, sql: string, pkFieldName: string, ids: seq<Value>, k: nat)
    requires k < |ids| && pkFieldName != TENANT_PARAM_NAME
    ensures var r := DelByIdsBatch(env, src, tableName, sql, pkFieldName, ids);
      && GetValue(r.rows[k], pkFieldName) == Success(ids[k])
      && (GetWriteTenantId(env, src, tableName) != Null ==>
            && GetValue(r.rows[k], TENANT_PARAM_NAME) == Success(GetWriteTenantId(env, src, tableName))
            && EndsWith(r.sql, WriteSuffix(env.tenantColumn)))
      && (GetWriteTenantId(env, src, tableName) == Null ==> r.sql == sql)
  {
    var r := DelByIdsBatch(env, src, tableName, sql, pkFieldName, ids);
    assert ConditionResult(r.sql, r.rows[k]) == ApplyWriteConditions(env, src, sql, IdSource(pkFieldName, ids[k]), tableName);
    if GetWriteTenantId(env, src, tableName) != Null {
      EndsWithConcat(sql, WriteSuffix(env.tenantColumn));
    }
  }

  /** The tenant branch of insertPO: with a non-null write tenant id and an INSERT that does
      not mention the tenant column, the column is appended to the text and the placeholder
      bound. */
  function InsertTenantBranch(env: Env, src: TenantSource, tableName: string, sql: string, sps: ParameterSource): (r: ConditionResult)
    ensures GetWriteTenantId(env, src, tableName) == Null || Contains(ToLower(sql), ToLower(env.tenantColumn)) ==>
      r == ConditionResult(sql, sps)
    ensures GetWriteTenantId(env, src, tableName) != Null && !Contains(ToLower(sql), ToLower(env.tenantColumn)) ==>
      r.sps == TenantAware(sps, TENANT_PARAM_NAME, GetWriteTenantId(env, src, tableName))
  {
    var tenantId := GetWriteTenantId(env, src, tableName);
    if tenantId != Null && !Contains(ToLower(sql), ToLower(env.tenantColumn)) then
      ConditionResult(AppendTenantToInsertSql(env.tenantEnabled, env.tenantColumn, Some(sql)).value,
                      TenantAware(sps, TENANT_PARAM_NAME, tenantId))
    else ConditionResult(sql, sps)
  }

  /** After the tenant branch of insertPO the INSERT either is unchanged or mentions the
      tenant column, and running the branch again on its own output changes nothing further
      in the text. */
  lemma InsertTenantBranchMentionsColumn(env: Env, src: TenantSource, tableName: string, sql: string, sps: ParameterSource)
    ensures var r := InsertTenantBranch(env, src, tableName, sql, sps);
      && (r.sql == sql || Contains(ToLower(r.sql), ToLower(env.tenantColumn)))
      && InsertTenantBranch(env, src, tableName, r.sql, sps).sql == r.sql
  {
    InsertRewriteMentionsColumn(env.tenantEnabled, env.tenantColumn, sql);
    InsertRewriteIdempotent(env.tenantEnabled, env.tenantColumn, Some(sql));
  }

  /** The declared type of the tenant field, as setTenantField distinguishes it. */
  datatype FieldKind = LongField | IntegerField | StringField | OtherField

  const LONG_MIN: int := -0x8000_0000_0000_0000
  const LONG_MAX: int := 0x7FFF_FFFF_FFFF_FFFF
  const INT_MIN: int := -0x8000_0000
  const INT_MAX: int := 0x7FFF_FFFF

  /** Long.parseLong / Integer.parseInt: a decimal within the type's range, or a failure. */
  function ParseInRange(s: string, lo: int, hi: int): (r: Option<int>)
    ensures r.Some? ==> lo <= r.value <= hi && ParseDecimal(s) == Some(r.value)
  {
    match ParseDecimal(s)
    case Some(v) => if lo <= v <= hi then Some(v) else None
    case None => None
  }

  /** setTenantField: the new value of the tenant field. A field that already holds a value
      is left alone (a primitive long or int field holds 0, never null, so it is never
      filled). A null tenant id, or one whose text does not parse for a numeric field, makes
      the conversion fail; the failure is logged and the field stays null. */
  function SetTenantField(current: Value, kind: FieldKind, tenantId: Value): (r: Value)
    ensures current != Null ==> r == current
    ensures current == Null && tenantId == Null ==> r == Null
    ensures r == current || (current == Null && r != Null)
  {
    if current != Null then current
    else if tenantId == Null then current
    else
      match kind
      case LongField =>
        (match ParseInRange(Show(tenantId), LONG_MIN, LONG_MAX)
         case Some(v) => Num(v)
         case None => current)
      case IntegerField =>
        (match ParseInRange(Show(tenantId), INT_MIN, INT_MAX)
         case Some(v) => Num(v)
         case None => current)
      case StringField => Str(Show(tenantId))
      case OtherField => tenantId
  }

  /** A numeric tenant id that fits the field's type is stored as the same number, a String
      field receives its decimal text, and filling twice is filling once. */
  lemma SetTenantFieldKeepsNumber(kind: FieldKind, n: int)
    ensures kind == LongField && LONG_MIN <= n <= LONG_MAX ==> SetTenantField(Null, kind, Num(n)) == Num(n)
    ensures kind == IntegerField && INT_MIN <= n <= INT_MAX ==> SetTenantField(Null, kind, Num(n)) == Num(n)
    ensures kind == StringField ==> SetTenantField(Null, kind, Num(n)) == Str(IntToString(n))
    ensures kind == OtherField ==> SetTenantField(Null, kind, Num(n)) == Num(n)
  {
    ParseIntToString(n);
  }

  /** Filling the field twice is filling it once. */
  lemma SetTenantFieldIdempotent(current: Value, kind: FieldKind, tenantId: Value)
    ensures SetTenantField(SetTenantField(current, kind, tenantId), kind, tenantId) == SetTenantField(current, kind, tenantId)
  {
  }

  /** One entity of a batch insert: its readable properties by name. */
  type Entity = map<string, Value>

  /** The BeanPropertySqlParameterSource of an entity. */
  function BeanSource(po: Entity): ParameterSource
  {
    MapSource(po, map[], map[])
  }

  function Beans(pos: seq<Entity>): (r: seq<ParameterSource>)
    ensures |r| == |pos|
  {
    seq(|pos|, k requires 0 <= k < |pos| => BeanSource(pos[k]))
  }

  /** setTenantField on one entity: only the tenant field changes, as SetTenantField says. */
  function FillTenant(po: Entity, fieldName: string, kind: FieldKind, tenantId: Value): (r: Entity)
    ensures r.Keys == po.Keys
    ensures fieldName in po ==> r[fieldName] == SetTenantField(po[fieldName], kind, tenantId)
    ensures forall n :: n in po && n != fieldName ==> r[n] == po[n]
  {
    if fieldName in po then po[fieldName := SetTenantField(po[fieldName], kind, tenantId)] else po
  }

  /** The message of the BusinessException batchInsertPO throws for any exception in its body. */
  const BATCH_INSERT_ERROR := "系统错误,请联系管理员"

  /** The unchunked batchInsertPO's tenant decision for an INSERT built from the first entity.
      An empty list returns at once, with no statement run.
      Without a write tenant id the entities run as they are. When the INSERT already names
      the tenant column, the field named by underscoreToCamelCase(tenantColumn) is filled in
      every entity, if the class has it (tenantField is its kind, None when
      findFieldInHierarchy finds nothing); a conversion that throws is caught and rethrown as
      the catch-all BusinessException. Otherwise
      the column is appended to the INSERT and every entity's source binds the placeholder. */
  function BatchInsertRows(env: Env, src: TenantSource, tableName: string, sql: string,
                           tenantField: Option<FieldKind>, pos: seq<Entity>): (r: Result<BatchStatement>)
    ensures |pos| == 0 ==> r == Success(BatchStatement(sql, []))
    ensures r.Success? ==> |r.value.rows| == |pos|
    ensures r.Failure? ==> && |pos| > 0 && r.error == BATCH_INSERT_ERROR
                           && GetWriteTenantId(env, src, tableName) != Null && FromUnderscore(env.tenantColumn).Failure?
  {
    var tenantId := GetWriteTenantId(env, src, tableName);
    if |pos| == 0 then Success(BatchStatement(sql, []))
    else if tenantId == Null then Success(BatchStatement(sql, Beans(pos)))
    else if Contains(ToLower(sql), ToLower(env.tenantColumn)) then
      match FromUnderscore(env.tenantColumn)
      case Failure(_) => Failure(BATCH_INSERT_ERROR)
      case Success(fieldName) =>
        var filled := if tenantField.Some? then seq(|pos|, k requires 0 <= k < |pos| => FillTenant(pos[k], fieldName, tenantField.value, tenantId))
                      else pos;
        Success(BatchStatement(sql, Beans(filled)))
    else
      Success(BatchStatement(AppendTenantToInsertSql(env.tenantEnabled, env.tenantColumn, Some(sql)).value,
                             seq(|pos|, k requires 0 <= k < |pos| => TenantAware(BeanSource(pos[k]), TENANT_PARAM_NAME, tenantId))))
  }

  /** batchInsertPO(pos, autoCreateId)'s loops: the field fill over the entities, or the
      wrapping of each entity's source. */
  method BatchInsertTenant(env: Env, src: TenantSource, tableName: string, sql: string,
                           tenantField: Option<FieldKind>, pos: seq<Entity>) returns (r: Result<BatchStatement>)
    ensures r == BatchInsertRows(env, src, tableName, sql, tenantField, pos)
  {
    if |pos| == 0 {
      return Success(BatchStatement(sql, []));
    }
    var tenantId := GetWriteTenantId(env, src, tableName);
    if tenantId == Null {
      return Success(BatchStatement(sql, Beans(pos)));
    }
    if Contains(ToLower(sql), ToLower(env.tenantColumn)) {
      var name := FromUnderscore(env.tenantColumn);
      if name.Failure? {
        return Failure(BATCH_INSERT_ERROR);
      }
      var filled := pos;
      if tenantField.Some? {
        for k := 0 to |pos|
          invariant |filled| == |pos|
          invariant forall j :: 0 <= j < k ==> filled[j] == FillTenant(pos[j], name.value, tenantField.value, tenantId)
          invariant forall j :: k <= j < |pos| ==> filled[j] == pos[j]
        {
          filled := filled[k := FillTenant(pos[k], name.value, tenantField.value, tenantId)];
        }
        assert filled == seq(|pos|, k requires 0 <= k < |pos| => FillTenant(pos[k], name.value, tenantField.value, tenantId));
      }
      return Success(BatchStatement(sql, Beans(filled)));
    }
    var stmt := AppendTenantToInsertSql(env.tenantEnabled, env.tenantColumn, Some(sql)).value;
    var rows: seq<ParameterSource> := [];
    for k := 0 to |pos|
      invariant |rows| == k
      invariant forall j :: 0 <= j < k ==> rows[j] == TenantAware(BeanSource(pos[j]), TENANT_PARAM_NAME, tenantId)
    {
      rows := rows + [TenantAware(BeanSource(pos[k]), TENANT_PARAM_NAME, tenantId)];
    }
    assert rows == seq(|pos|, k requires 0 <= k < |pos| => TenantAware(BeanSource(pos[k]), TENANT_PARAM_NAME, tenantId));
    r := Success(BatchStatement(stmt, rows));
  }

  /** Unless the INSERT already names the tenant column under a non-null write tenant id,
      the batch treats every entity exactly as insertPO's tenant branch treats it alone. */
  lemma BatchInsertRowIsInsertBranch(env: Env, src: TenantSource, tableName: string, sql: string,
                                     tenantField: Option<FieldKind>, pos: seq<Entity>, k: nat)
    requires k < |pos|
    requires GetWriteTenantId(env, src, tableName) == Null || !Contains(ToLower(sql), ToLower(env.tenantColumn))
    ensures var r := BatchInsertRows(env, src, tableName, sql, tenantField, pos);
      && r.Success?
      && ConditionResult(r.value.sql, r.value.rows[k]) == InsertTenantBranch(env, src, tableName, sql, BeanSource(pos[k]))
  {
  }

  /** When the INSERT already names the tenant column, the text is kept and each entity's
      tenant field, if the class has it, is filled as setTenantField fills it; every other
      property keeps its value. */
  lemma BatchInsertFillsTenantField(env: Env, src: TenantSource, tableName: string, sql: string,
                                    kind: FieldKind, pos: seq<Entity>, k: nat, name: string)
    requires k < |pos|
    requires GetWriteTenantId(env, src, tableName) != Null && Contains(ToLower(sql), ToLower(env.tenantColumn))
    requires FromUnderscore(env.tenantColumn).Success?
    ensures var r := BatchInsertRows(env, src, tableName, sql, Some(kind), pos);
      var fieldName := FromUnderscore(env.tenantColumn).value;
      && r.Success? && r.value.sql == sql
      && (fieldName in pos[k] ==>
            GetValue(r.value.rows[k], fieldName) == Success(SetTenantField(pos[k][fieldName], kind, GetWriteTenantId(env, src, tableName))))
      && (name != fieldName ==> GetValue(r.value.rows[k], name) == GetValue(BeanSource(pos[k]), name))
  {
    var fieldName := FromUnderscore(env.tenantColumn).value;
    var r := BatchInsertRows(env, src, tableName, sql, Some(kind), pos);
    var filled := seq(|pos|, j requires 0 <= j < |pos| => FillTenant(pos[j], fieldName, kind, GetWriteTenantId(env, src, tableName)));
    assert r.value.rows[k] == BeanSource(filled[k]);
  }

  /** The number of sub-batches `(int) Math.ceil((double) size / batchSize)` gives: the
      integer ceiling for a positive batch size; for zero, positive infinity saturates to
      Integer.MAX_VALUE (and 0/0 is NaN, which becomes 0); a negative batch size gives a
      quotient whose ceiling is at most 0. */
  function BatchCount(size: nat, batchSize: int): (r: nat)
    ensures batchSize > 0 ==> (r - 1) * batchSize < size <= r * batchSize
    ensures batchSize > 0 && size > 0 ==> r > 0
    ensures batchSize < 0 ==> r == 0
  {
    if batchSize > 0 then
      var q := (size + batchSize - 1) / batchSize;
      assert q * batchSize + (size + batchSize - 1) % batchSize == size + batchSize - 1;
      q
    else if batchSize == 0 && size > 0 then INT_MAX
    else 0
  }

  /** The chunks laid end to end. */
  function Concat<T>(chunks: seq<seq<T>>): seq<T>
  {
    if |chunks| == 0 then [] else Concat(chunks[..|chunks| - 1]) + chunks[|chunks| - 1]
  }

  lemma ConcatAppend<T>(chunks: seq<seq<T>>, c: seq<T>)
    ensures Concat(chunks + [c]) == Concat(chunks) + c
  {
    assert (chunks + [c])[..|chunks|] == chunks;
  }

  /** Sub-batch i of a positive batch size starts inside the list and the next one starts
      batchSize further on. */
  lemma ChunkStart(i: nat, batchSize: int, batchCount: nat, totalSize: nat)
    requires batchSize > 0 && i < batchCount
    requires (batchCount - 1) * batchSize < totalSize
    ensures i * batchSize < totalSize
    ensures (i + 1) * batchSize == i * batchSize + batchSize
  {
    assert i * batchSize <= (batchCount - 1) * batchSize;
  }

  /** batchInsertPO(pos, autoCreateId, batchSize): the sub-lists handed, in order, to the
      unchunked batchInsertPO. With a positive batch size they are non-empty, all but the
      last exactly batchSize long, and together they are the input in order; with batch
      size 0 there are Integer.MAX_VALUE empty calls (an empty list returns at once). */
  method BatchInsertChunks<T>(pos: seq<T>, batchSize: int) returns (chunks: seq<seq<T>>)
    ensures |chunks| == BatchCount(|pos|, batchSize)
    ensures batchSize > 0 ==> Concat(chunks) == pos
    ensures batchSize > 0 ==> forall k :: 0 <= k < |chunks| ==> 0 < |chunks[k]| <= batchSize
    ensures batchSize > 0 ==> forall k :: 0 <= k < |chunks| - 1 ==> |chunks[k]| == batchSize
    ensures batchSize == 0 ==> forall k :: 0 <= k < |chunks| ==> chunks[k] == []
  {
    var totalSize := |pos|;
    var batchCount := BatchCount(totalSize, batchSize);
    var currentIndex := 0;
    chunks := [];
    var i := 0;
    while i < batchCount
      invariant 0 <= i <= batchCount
      invariant |chunks| == i
      invariant 0 <= currentIndex <= totalSize
      invariant Concat(chunks) == pos[..currentIndex]
      invariant batchSize > 0 ==> currentIndex == if i * batchSize < totalSize then i * batchSize else totalSize
      invariant batchSize > 0 ==> forall k :: 0 <= k < i ==> 0 < |chunks[k]| <= batchSize
      invariant batchSize > 0 ==> forall k :: 0 <= k < i - 1 ==> |chunks[k]| == batchSize
      invariant batchSize > 0 && currentIndex < totalSize ==> forall k :: 0 <= k < i ==> |chunks[k]| == batchSize
      invariant batchSize == 0 ==> currentIndex == 0 && forall k :: 0 <= k < i ==> chunks[k] == []
    {
      var remainingSize := totalSize - currentIndex;
      var currentBatchSize := if batchSize < remainingSize then batchSize else remainingSize;
      if batchSize > 0 {
        ChunkStart(i, batchSize, batchCount, totalSize);
      }
      var batchList := pos[currentIndex..currentIndex + currentBatchSize];
      ConcatAppend(chunks, batchList);
      assert pos[..currentIndex] + batchList == pos[..currentIndex + currentBatchSize];
      chunks := chunks + [batchList];
      currentIndex := currentIndex + currentBatchSize;
      i := i + 1;
    }
    if batchSize > 0 {
      assert currentIndex == totalSize;
    }
  }
}
