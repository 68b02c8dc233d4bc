/** DatabaseSchemaValidator: checks each registered table against the database at start-up,
    collects errors, warnings and successes per table, and switches off the delete predicate of
    a table whose delete column the database lacks. The database probes are represented by
    what they answer. */
module SchemaValidator {
  import opened Wrappers
  import opened Text
  import opened SqlTree
  import opened TableCache
  import opened ConditionEngine

  /** What the database answers: the tables tableExists finds, and the column names
      getTableColumns reads for a table (none when both of its queries fail). */
  datatype Schema = Schema(existing: set<string>, columns: map<string, set<string>>)
  {
    predicate TableExists(t: string)
    {
      t in existing
    }

    /** getTableColumns: the names come back lower-cased. */
    function TableColumns(t: string): (r: set<string>)
      ensures forall c :: c in r ==> c == ToLower(c)
    {
      var raw := if t in columns then columns[t] else {};
      LowerIsIdempotent();
      set c | c in raw :: ToLower(c)
    }
  }

  lemma LowerIsIdempotent()
    ensures forall s :: ToLower(ToLower(s)) == ToLower(s)
  {
  }

  /** A table's messages, per list. */
  type Messages = map<string, seq<string>>

  /** The list a table has in a message map, empty when it has none. */
  function Entry(m: Messages, t: string): seq<string>
  {
    if t in m then m[t] else []
  }

  /** computeIfAbsent(t, new ArrayList).add(msg). */
  function Appended(m: Messages, t: string, msg: string): (r: Messages)
    ensures Entry(r, t) == Entry(m, t) + [msg]
    ensures forall u :: u != t ==> Entry(r, u) == Entry(m, u)
    ensures r.Keys == m.Keys + {t}
  {
    m[t := Entry(m, t) + [msg]]
  }

  /** Adding each message of a list in turn. */
  function AppendedAll(m: Messages, t: string, msgs: seq<string>): (r: Messages)
    ensures Entry(r, t) == Entry(m, t) + msgs
    ensures forall u :: u != t ==> Entry(r, u) == Entry(m, u)
    ensures r.Keys == if msgs == [] then m.Keys else m.Keys + {t}
  {
    if msgs == [] then m else m[t := Entry(m, t) + msgs]
  }

  /** Lists only ever exist once something was added to them. */
  predicate NoEmptyLists(m: Messages)
  {
    forall t :: t in m ==> |m[t]| > 0
  }

  /** The number of messages in a map: the stream sum of the list sizes. */
  ghost function SumSizes(m: Messages): nat
    decreases |m|
  {
    if |m| == 0 then 0
    else
      var t :| t in m;
      |m[t]| + SumSizes(m - {t})
  }

  /** The sum does not depend on which key is taken first. */
  lemma {:induction false} SumSizesRemove(m: Messages, t: string)
    requires t in m
    ensures SumSizes(m) == |m[t]| + SumSizes(m - {t})
    decreases |m|
  {
    var u := Pick(m);
    if u != t {
      var mu := m - {u};
      var mt := m - {t};
      RemoveShrinks(m, u);
      RemoveShrinks(m, t);
      assert t in mu && mu[t] == m[t];
      assert u in mt && mt[u] == m[u];
      SumSizesRemove(mu, t);
      SumSizesRemove(mt, u);
      assert mu - {t} == mt - {u};
    }
  }

  /** The key SumSizes takes first. */
  lemma Pick(m: Messages) returns (u: string)
    requires |m| > 0
    ensures u in m && SumSizes(m) == |m[u]| + SumSizes(m - {u})
  {
    u :| u in m && SumSizes(m) == |m[u]| + SumSizes(m - {u});
  }

  lemma RemoveShrinks(m: Messages, t: string)
    requires t in m
    ensures |m - {t}| == |m| - 1
  {
    assert (m - {t}).Keys == m.Keys - {t};
  }

  /** Each add raises the count by exactly one. */
  lemma SumSizesAppended(m: Messages, t: string, msg: string)
    ensures SumSizes(Appended(m, t, msg)) == SumSizes(m) + 1
  {
    var r := Appended(m, t, msg);
    SumSizesRemove(r, t);
    if t in m {
      SumSizesRemove(m, t);
      assert r - {t} == m - {t};
    } else {
      assert r - {t} == m;
    }
  }

  /** With no empty lists, a map has a table exactly when it has a message. */
  lemma NonEmptyIffCounted(m: Messages)
    requires NoEmptyLists(m)
    ensures |m| > 0 <==> SumSizes(m) > 0
  {
    if |m| > 0 {
      var t :| t in m;
      SumSizesRemove(m, t);
    }
  }

  /** A union of table sets is at least as large as each and at most their sizes summed. */
  lemma UnionSize(a: set<string>, b: set<string>)
    ensures |a| <= |a + b| && |b| <= |a + b| <= |a| + |b|
  {
    assert a + b == a + (b - a);
    assert a + b == (a - b) + b;
  }

  /** ValidationResult. */
  class ValidationResult {
    var errors: Messages
    var warnings: Messages
    var successes: Messages

    ghost predicate Valid()
      reads this
    {
      NoEmptyLists(errors) && NoEmptyLists(warnings) && NoEmptyLists(successes)
    }

    constructor ()
      ensures Valid()
      ensures errors == map[] && warnings == map[] && successes == map[]
    {
      errors, warnings, successes := map[], map[], map[];
    }

    /** addError: the message goes at the end of the table's error list; nothing else changes. */
    method AddError(tableName: string, message: string)
      requires Valid()
      modifies this
      ensures Valid()
      ensures errors == Appended(old(errors), tableName, message)
      ensures warnings == old(warnings) && successes == old(successes)
    {
      errors := Appended(errors, tableName, message);
    }

    /** addWarning. */
    method AddWarning(tableName: string, message: string)
      requires Valid()
      modifies this
      ensures Valid()
      ensures warnings == Appended(old(warnings), tableName, message)
      ensures errors == old(errors) && successes == old(successes)
    {
      warnings := Appended(warnings, tableName, message);
    }

    /** addSuccess. */
    method AddSuccess(tableName: string, message: string)
      requires Valid()
      modifies this
      ensures Valid()
      ensures successes == Appended(old(successes), tableName, message)
      ensures errors == old(errors) && warnings == old(warnings)
    {
      successes := Appended(successes, tableName, message);
    }

    /** hasErrors. */
    function HasErrors(): (r: bool)
      reads this
      ensures r <==> exists t :: t in errors
    {
      |errors| > 0
    }

    /** hasWarnings. */
    function HasWarnings(): (r: bool)
      reads this
      ensures r <==> exists t :: t in warnings
    {
      |warnings| > 0
    }

    /** hasErrors holds exactly when an error was added, and so for warnings. */
    lemma HasIffCounted()
      requires Valid()
      ensures HasErrors() <==> SumSizes(errors) > 0
      ensures HasWarnings() <==> SumSizes(warnings) > 0
    {
      NonEmptyIffCounted(errors);
      NonEmptyIffCounted(warnings);
    }

    /** getErrorCount, getWarningCount and getSuccessCount: the sum over one map. */
    static method Count(m: Messages) returns (n: nat)
      ensures n == SumSizes(m)
    {
      n := 0;
      var rest := m;
      while |rest| > 0
        invariant n + SumSizes(rest) == SumSizes(m)
        decreases |rest|
      {
        var t :| t in rest;
        SumSizesRemove(rest, t);
        n := n + |rest[t]|;
        rest := rest - {t};
      }
    }

    method GetErrorCount() returns (n: nat)
      ensures n == SumSizes(errors)
    {
      n := Count(errors);
    }

    method GetWarningCount() returns (n: nat)
      ensures n == SumSizes(warnings)
    {
      n := Count(warnings);
    }

    method GetSuccessCount() returns (n: nat)
      ensures n == SumSizes(successes)
    {
      n := Count(successes);
    }

    /** getTotalTables: the tables with any message. */
    function GetTotalTables(): (r: nat)
      reads this
      ensures |errors| <= r && |warnings| <= r && |successes| <= r
      ensures r <= |errors| + |warnings| + |successes|
    {
      UnionSize(errors.Keys, warnings.Keys);
      UnionSize(errors.Keys + warnings.Keys, successes.Keys);
      |errors.Keys + warnings.Keys + successes.Keys|
    }

    /** getErrors, getWarnings and getSuccesses hand out copies; a map value is one. */
    function GetErrors(): Messages
      reads this
    {
      errors
    }

    function GetWarnings(): Messages
      reads this
    {
      warnings
    }

    function GetSuccesses(): Messages
      reads this
    {
      successes
    }
  }

  const NO_DELETE_INFO: string := "未找到删除条件配置信息"

  function TableMissingMessage(t: string): string
  {
    "表 '" + t + "' 在数据库中不存在"
  }

  function PkMissingMessage(pk: string, t: string): string
  {
    "主键字段 '" + pk + "' 在表 '" + t + "' 中不存在"
  }

  function DelMissingMessage(d: string, t: string): string
  {
    "删除标记字段 '" + d + "' 在表 '" + t + "' 中不存在，已跳过删除条件拼接"
  }

  function DelPresentMessage(d: string): string
  {
    "删除标记字段 '" + d + "' 验证通过"
  }

  /** What validateTable adds for one table, in order, and whether it marks the table's
      delete column invalid. */
  datatype Verdict = Verdict(errors: seq<string>, warnings: seq<string>, successes: seq<string>, markInvalid: bool)

  /** The missing primary key error, if any: the cached key column is compared lower-cased. */
  function PkErrors(reg: Registry, schema: Schema, t: string): seq<string>
  {
    match reg.PkColumnByTableName(t)
    case None => []
    case Some(pk) => if ToLower(pk) !in schema.TableColumns(t) then [PkMissingMessage(pk, t)] else []
  }

  /** validateTable's classification. */
  function TableVerdict(reg: Registry, schema: Schema, t: string): (r: Verdict)
    ensures |r.errors| <= 1 && |r.warnings| <= 1 && |r.successes| <= 1
    ensures r.markInvalid ==> reg.DeleteInfoByTableName(Some(t)).Some? && schema.TableExists(t) && |r.warnings| == 1
    ensures r.errors == [] && r.warnings == [] && r.successes == [] ==>
      reg.DeleteInfoByTableName(Some(t)).Some? && reg.DeleteInfoByTableName(Some(t)).value.delColumn == ""
  {
    match reg.DeleteInfoByTableName(Some(t))
    case None => Verdict([], [NO_DELETE_INFO], [], false)
    case Some(d) =>
      if !schema.TableExists(t) then Verdict([TableMissingMessage(t)], [], [], false)
      else
        var pkErrors := PkErrors(reg, schema, t);
        if d.delColumn != "" && ToLower(d.delColumn) !in schema.TableColumns(t) then
          Verdict(pkErrors, [DelMissingMessage(d.delColumn, t)], [], true)
        else if d.delColumn != "" then Verdict(pkErrors, [], [DelPresentMessage(d.delColumn)], false)
        else Verdict(pkErrors, [], [], false)
  }

  /** The classification, case by case: a table without a descriptor gets one warning only;
      a missing table one error only; otherwise a missing key column is one error, and a
      non-empty delete column is either missing (one warning, and the descriptor is marked
      invalid) or present (one success), compared lower-cased. */
  lemma VerdictCases(reg: Registry, schema: Schema, t: string)
    ensures var v := TableVerdict(reg, schema, t);
      var d := reg.DeleteInfoByTableName(Some(t));
      && (d.None? ==> v == Verdict([], [NO_DELETE_INFO], [], false))
      && (d.Some? && !schema.TableExists(t) ==> v == Verdict([TableMissingMessage(t)], [], [], false))
      && (d.Some? && schema.TableExists(t) ==>
            && |v.errors| <= 1
            && (|v.errors| == 1 <==> reg.PkColumnByTableName(t).Some?
                                     && ToLower(reg.PkColumnByTableName(t).value) !in schema.TableColumns(t))
            && (v.markInvalid <==> d.value.delColumn != "" && ToLower(d.value.delColumn) !in schema.TableColumns(t))
            && (|v.warnings| == 1 <==> v.markInvalid)
            && (|v.successes| == 1 <==> d.value.delColumn != "" && ToLower(d.value.delColumn) in schema.TableColumns(t))
            && |v.warnings| + |v.successes| <= 1)
  {
  }

  /** validateTable on the shared result and the registry. */
  method ValidateTable(cache: TableCacheManager, schema: Schema, tableName: string, result: ValidationResult)
    requires cache.Valid() && result.Valid()
    modifies cache, result
    ensures cache.Valid() && result.Valid()
    ensures var v := TableVerdict(old(cache.Snapshot()), schema, tableName);
      && result.errors == AppendedAll(old(result.errors), tableName, v.errors)
      && result.warnings == AppendedAll(old(result.warnings), tableName, v.warnings)
      && result.successes == AppendedAll(old(result.successes), tableName, v.successes)
      && cache.Snapshot() == if v.markInvalid then old(cache.Snapshot()).MarkDeleteFieldAsInvalid(tableName)
                             else old(cache.Snapshot())
  {
    var reg := cache.Snapshot();
    var deleteInfo := reg.DeleteInfoByTableName(Some(tableName));
    if deleteInfo.None? {
      result.AddWarning(tableName, NO_DELETE_INFO);
      return;
    }
    if !schema.TableExists(tableName) {
      result.AddError(tableName, TableMissingMessage(tableName));
      return;
    }
    var columns := schema.TableColumns(tableName);
    var pkColumn := reg.PkColumnByTableName(tableName);
    if pkColumn.Some? && ToLower(pkColumn.value) !in columns {
      result.AddError(tableName, PkMissingMessage(pkColumn.value, tableName));
    }
    var delColumn := deleteInfo.value.delColumn;
    if delColumn != "" && ToLower(delColumn) !in columns {
      cache.MarkDeleteFieldAsInvalid(tableName);
      result.AddWarning(tableName, DelMissingMessage(delColumn, tableName));
    } else if delColumn != "" {
      result.AddSuccess(tableName, DelPresentMessage(delColumn));
    }
  }

  /** Marking one table's delete column invalid changes no table's verdict: the verdict reads
      the descriptors' columns and the key columns, never the flag. */
  lemma VerdictIgnoresMarks(reg: Registry, schema: Schema, u: string, t: string)
    ensures TableVerdict(reg.MarkDeleteFieldAsInvalid(u), schema, t) == TableVerdict(reg, schema, t)
  {
    var r2 := reg.MarkDeleteFieldAsInvalid(u);
    assert r2.pkColumns == reg.pkColumns;
    var d1 := reg.DeleteInfoByTableName(Some(t));
    var d2 := r2.DeleteInfoByTableName(Some(t));
    assert d1.Some? == d2.Some?;
    assert d1.Some? ==> d1.value.delColumn == d2.value.delColumn;
  }

  /** A descriptor once marked invalid stays invalid when another table is marked. */
  lemma MarkKeepsInvalid(reg: Registry, u: string, t: string)
    requires reg.DeleteInfoByTableName(Some(t)).Some? && !reg.DeleteInfoByTableName(Some(t)).value.valid
    ensures reg.MarkDeleteFieldAsInvalid(u).DeleteInfoByTableName(Some(t)).Some?
    ensures !reg.MarkDeleteFieldAsInvalid(u).DeleteInfoByTableName(Some(t)).value.valid
  {
  }

  /** The lists hold, for each table already visited, exactly its verdict's messages. */
  ghost predicate Recorded(e: Messages, w: Messages, su: Messages, reg0: Registry, schema: Schema, visited: set<string>)
  {
    forall t ::
      && Entry(e, t) == (if t in visited then TableVerdict(reg0, schema, t).errors else [])
      && Entry(w, t) == (if t in visited then TableVerdict(reg0, schema, t).warnings else [])
      && Entry(su, t) == (if t in visited then TableVerdict(reg0, schema, t).successes else [])
  }

  lemma RecordedStep(e: Messages, w: Messages, su: Messages, reg0: Registry, schema: Schema, visited: set<string>, t: string)
    requires Recorded(e, w, su, reg0, schema, visited) && t !in visited
    ensures var v := TableVerdict(reg0, schema, t);
      Recorded(AppendedAll(e, t, v.errors), AppendedAll(w, t, v.warnings), AppendedAll(su, t, v.successes),
               reg0, schema, visited + {t})
  {
  }

  /** Every table gets the same verdict from both registries. */
  ghost predicate SameVerdicts(reg: Registry, reg0: Registry, schema: Schema)
  {
    forall t :: TableVerdict(reg, schema, t) == TableVerdict(reg0, schema, t)
  }

  lemma SameVerdictsStep(reg: Registry, reg0: Registry, schema: Schema, u: string)
    requires SameVerdicts(reg, reg0, schema)
    ensures SameVerdicts(reg.MarkDeleteFieldAsInvalid(u), reg0, schema)
  {
    forall t
      ensures TableVerdict(reg.MarkDeleteFieldAsInvalid(u), schema, t) == TableVerdict(reg0, schema, t)
    {
      VerdictIgnoresMarks(reg, schema, u, t);
    }
  }

  /** Every visited table whose verdict marks it has an invalid descriptor. */
  ghost predicate MarksApplied(reg: Registry, reg0: Registry, schema: Schema, visited: set<string>)
  {
    forall t :: t in visited && TableVerdict(reg0, schema, t).markInvalid ==>
      reg.DeleteInfoByTableName(Some(t)).Some? && !reg.DeleteInfoByTableName(Some(t)).value.valid
  }

  lemma MarksAppliedStep(reg: Registry, reg0: Registry, schema: Schema, visited: set<string>, t: string)
    requires reg.Valid() && SameVerdicts(reg, reg0, schema) && MarksApplied(reg, reg0, schema, visited)
    ensures var reg' := if TableVerdict(reg, schema, t).markInvalid then reg.MarkDeleteFieldAsInvalid(t) else reg;
      MarksApplied(reg', reg0, schema, visited + {t})
  {
    if TableVerdict(reg, schema, t).markInvalid {
      forall x | x in visited && TableVerdict(reg0, schema, x).markInvalid
        ensures reg.MarkDeleteFieldAsInvalid(t).DeleteInfoByTableName(Some(x)).Some?
        ensures !reg.MarkDeleteFieldAsInvalid(t).DeleteInfoByTableName(Some(x)).value.valid
      {
        MarkKeepsInvalid(reg, t, x);
      }
      MarkedIsInvalid(reg, schema, t);
    } else {
      assert !TableVerdict(reg0, schema, t).markInvalid;
    }
  }

  /** validateAllTables: every registered table is validated once, in whatever order the
      set gives them; each table's lists are its own verdict, and every table whose delete
      column is missing ends with its descriptor invalid. */
  method ValidateAllTables(cache: TableCacheManager, schema: Schema) returns (result: ValidationResult)
    requires cache.Valid()
    modifies cache
    ensures fresh(result) && result.Valid() && cache.Valid()
    ensures cache.Snapshot().AllTableNames() == old(cache.Snapshot().AllTableNames())
    ensures Recorded(result.errors, result.warnings, result.successes, old(cache.Snapshot()), schema,
                     old(cache.Snapshot().AllTableNames()))
    ensures MarksApplied(cache.Snapshot(), old(cache.Snapshot()), schema, old(cache.Snapshot().AllTableNames()))
  {
    result := new ValidationResult();
    var reg0 := cache.Snapshot();
    var names := reg0.AllTableNames();
    if |names| == 0 {
      return;
    }
    var remaining := names;
    ghost var visited: set<string> := {};
    while |remaining| > 0
      invariant remaining <= names && visited == names - remaining
      invariant cache.Valid() && result.Valid()
      invariant Progress(cache.Snapshot(), result.errors, result.warnings, result.successes, reg0, schema, visited)
      decreases |remaining|
    {
      var t :| t in remaining;
      ValidateNext(cache, schema, t, result, reg0, visited);
      remaining := remaining - {t};
      visited := visited + {t};
    }
  }

  /** What validateAllTables has achieved after validating the tables in `visited`, starting
      from registry `reg0`: the same tables are registered, no verdict has changed, each visited
      table's messages are its verdict, and each visited table whose verdict marks it is marked. */
  ghost predicate Progress(reg: Registry, e: Messages, w: Messages, su: Messages, reg0: Registry, schema: Schema,
                           visited: set<string>)
  {
    && reg.Valid()
    && reg.AllTableNames() == reg0.AllTableNames()
    && SameVerdicts(reg, reg0, schema)
    && Recorded(e, w, su, reg0, schema, visited)
    && MarksApplied(reg, reg0, schema, visited)
  }

  /** One iteration of validateAllTables: validating a table not yet visited extends the
      progress to it. */
  method ValidateNext(cache: TableCacheManager, schema: Schema, t: string, result: ValidationResult,
                      ghost reg0: Registry, ghost visited: set<string>)
    requires cache.Valid() && result.Valid() && t !in visited
    requires Progress(cache.Snapshot(), result.errors, result.warnings, result.successes, reg0, schema, visited)
    modifies cache, result
    ensures cache.Valid() && result.Valid()
    ensures Progress(cache.Snapshot(), result.errors, result.warnings, result.successes, reg0, schema, visited + {t})
  {
    ghost var before := cache.Snapshot();
    RecordedStep(result.errors, result.warnings, result.successes, reg0, schema, visited, t);
    MarksAppliedStep(before, reg0, schema, visited, t);
    SameVerdictsStep(before, reg0, schema, t);
    ValidateTable(cache, schema, t, result);
  }

  /** A table whose verdict marks it has a descriptor, which marking makes invalid. */
  lemma MarkedIsInvalid(reg: Registry, schema: Schema, t: string)
    requires reg.Valid() && TableVerdict(reg, schema, t).markInvalid
    ensures reg.MarkDeleteFieldAsInvalid(t).DeleteInfoByTableName(Some(t)).Some?
    ensures !reg.MarkDeleteFieldAsInvalid(t).DeleteInfoByTableName(Some(t)).value.valid
  {
  }

  /** Once validation has marked a table, no pass injects a delete predicate for it, under
      any alias and in any spelling of its name. */
  lemma MarkedTableGetsNoDeletePredicate(reg: Registry, schema: Schema, t: string, m: Mode, env: Env, table: Table)
    requires reg.Valid() && TableVerdict(reg, schema, t).markInvalid
    requires env.registry == reg.MarkDeleteFieldAsInvalid(t)
    requires EqualsIgnoreCase(table.name, t)
    ensures ActiveDeleteInfo(m, env, table).None?
  {
    MarkedIsInvalid(reg, schema, t);
    assert env.registry.DeleteInfoByTableName(Some(table.name)) == env.registry.DeleteInfoByTableName(Some(t));
  }
}
