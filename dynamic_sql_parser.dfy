/** JSqlDynamicSqlParser's public entry points: the three SELECT rewrites over SQL text and
    the text-level INSERT rewriter. Java's null string is `None`. */
module DynamicSqlParser {
  import opened Wrappers
  import opened Text
  import opened SqlTree
  import opened TableCache
  import opened ConditionEngine
  import opened ConditionProcessing

  /** The text parses to a SELECT statement. */
  predicate ParsesAsSelect(lib: SqlLibrary, sql: string)
  {
    lib.parse(sql).Parsed? && lib.parse(sql).statement.SelectStatement?
  }

  /** What an entry point returns for non-null text once its own switches let it through:
      blank text and text that is not a SELECT come back as they are, a SELECT comes back
      rewritten and printed. */
  function EntryRewrite(m: Mode, env: Env, lib: SqlLibrary, sql: string): string
  {
    if Trim(sql) == "" || !ParsesAsSelect(lib, sql) then sql
    else lib.render(RewriteSelect(m, env, lib.parse(sql).statement.select))
  }

  /** The shared body of the three entry points once the text is worth parsing: parse, keep
      the text unless it is a SELECT, rewrite the tree, print it. */
  method RewriteSqlText(m: Mode, env: Env, lib: SqlLibrary, sql: string) returns (r: string)
    ensures !ParsesAsSelect(lib, sql) ==> r == sql
    ensures ParsesAsSelect(lib, sql) ==>
      r == lib.render(RewriteSelect(m, env, lib.parse(sql).statement.select))
  {
    var parsed := lib.parse(sql);
    if parsed.ParseError? || !parsed.statement.SelectStatement? {
      return sql;
    }
    var select := ProcessSelect(m, env, parsed.statement.select);
    r := lib.render(select);
  }

  /** appendDeleteCondition: null and blank text, text that does not parse and statements
      other than SELECT come back unchanged. */
  method AppendDeleteCondition(env: Env, lib: SqlLibrary, sql: Option<string>) returns (r: Option<string>)
    ensures sql.None? ==> r.None?
    ensures sql.Some? && (Trim(sql.value) == "" || !ParsesAsSelect(lib, sql.value)) ==> r == sql
    ensures sql.Some? && Trim(sql.value) != "" && ParsesAsSelect(lib, sql.value) ==>
      r == Some(lib.render(RewriteSelect(DeleteOnly, env, lib.parse(sql.value).statement.select)))
    ensures sql.Some? ==> r == Some(EntryRewrite(DeleteOnly, env, lib, sql.value))
  {
    if sql.None? || Trim(sql.value) == "" {
      return sql;
    }
    var text := RewriteSqlText(DeleteOnly, env, lib, sql.value);
    r := Some(text);
  }

  /** appendTenantCondition: in addition, nothing happens while tenant isolation is switched
      off or the current thread has called TenantContext.skip(). */
  method AppendTenantCondition(env: Env, lib: SqlLibrary, skipped: bool, sql: Option<string>) returns (r: Option<string>)
    ensures sql.None? ==> r.None?
    ensures !env.tenantEnabled || skipped ==> r == sql
    ensures sql.Some? && (Trim(sql.value) == "" || !ParsesAsSelect(lib, sql.value)) ==> r == sql
    ensures sql.Some? && env.tenantEnabled && !skipped && Trim(sql.value) != "" && ParsesAsSelect(lib, sql.value) ==>
      r == Some(lib.render(RewriteSelect(TenantOnly, env, lib.parse(sql.value).statement.select)))
    ensures sql.Some? && env.tenantEnabled && !skipped ==> r == Some(EntryRewrite(TenantOnly, env, lib, sql.value))
  {
    if !env.tenantEnabled || sql.None? || Trim(sql.value) == "" {
      return sql;
    }
    if skipped {
      return sql;
    }
    var text := RewriteSqlText(TenantOnly, env, lib, sql.value);
    r := Some(text);
  }

  /** appendConditions: both kinds of predicate in one parse. */
  method AppendConditions(env: Env, lib: SqlLibrary, sql: Option<string>) returns (r: Option<string>)
    ensures sql.None? ==> r.None?
    ensures sql.Some? && (Trim(sql.value) == "" || !ParsesAsSelect(lib, sql.value)) ==> r == sql
    ensures sql.Some? && Trim(sql.value) != "" && ParsesAsSelect(lib, sql.value) ==>
      r == Some(lib.render(RewriteSelect(Unified, env, lib.parse(sql.value).statement.select)))
    ensures sql.Some? ==> r == Some(EntryRewrite(Unified, env, lib, sql.value))
  {
    if sql.None? || Trim(sql.value) == "" {
      return sql;
    }
    var text := RewriteSqlText(Unified, env, lib, sql.value);
    r := Some(text);
  }

  /** The text appendTenantToInsertSql looks for, upper-case, to find the end of the column list. */
  const VALUES_MARKER: string := ") VALUES"

  /** appendTenantToInsertSql: adds the tenant column to the column list and the tenant
      placeholder to the value list. The text is kept when tenant isolation is off, it is
      null or blank, it already mentions the tenant column in any case, it has no ") VALUES"
      in any case, or no ')' after that. */
  function AppendTenantToInsertSql(tenantEnabled: bool, tenantColumn: string, sql: Option<string>): (r: Option<string>)
    ensures sql.None? ==> r.None?
    ensures sql.Some? ==> r.Some?
    ensures !tenantEnabled ==> r == sql
    ensures sql.Some? && Contains(ToLower(sql.value), ToLower(tenantColumn)) ==> r == sql
  {
    if !tenantEnabled || sql.None? || IsBlank(sql.value) then sql
    else if Contains(ToLower(sql.value), ToLower(tenantColumn)) then sql
    else
      var s := sql.value;
      var closeParen := IndexOf(ToUpper(s), VALUES_MARKER);
      if closeParen == -1 then sql
      else
        var lastClose := LastIndexOfChar(s, ')');
        if lastClose <= closeParen then sql
        else Some(s[..closeParen] + ", " + tenantColumn + ")" + s[closeParen + 1..lastClose] + ", :" + TENANT_PARAM_NAME + ")")
  }

  /** The rewritten INSERT text, spelled out as appendTenantToInsertSql builds it. */
  lemma InsertRewriteUnfold(tenantColumn: string, s: string)
    requires AppendTenantToInsertSql(true, tenantColumn, Some(s)) != Some(s)
    ensures var k := IndexOf(ToUpper(s), VALUES_MARKER);
      var last := LastIndexOfChar(s, ')');
      && 0 <= k < last < |s|
      && OccursAt(ToUpper(s), VALUES_MARKER, k)
      && AppendTenantToInsertSql(true, tenantColumn, Some(s)).value
           == s[..k] + ", " + tenantColumn + ")" + s[k + 1..last] + ", :" + TENANT_PARAM_NAME + ")"
  {
  }

  /** When the INSERT text is rewritten, the column is inserted before the first ") VALUES"
      (found ignoring case), the placeholder before the last ')', and whatever followed that
      last ')' is dropped; nothing else changes. */
  lemma InsertRewriteShape(tenantColumn: string, s: string, k: int, last: int)
    requires AppendTenantToInsertSql(true, tenantColumn, Some(s)) != Some(s)
    requires k == IndexOf(ToUpper(s), VALUES_MARKER) && last == LastIndexOfChar(s, ')')
    ensures 0 <= k < last < |s|
    ensures s[k] == ')' && s[last] == ')'
    ensures forall j :: last < j < |s| ==> s[j] != ')'
    ensures AppendTenantToInsertSql(true, tenantColumn, Some(s)).value
      == s[..k] + ", " + tenantColumn + s[k..last] + ", :" + TENANT_PARAM_NAME + s[last..last + 1]
  {
    InsertRewriteUnfold(tenantColumn, s);
    MarkerStartsWithParen(s, k);
    InsertedPieces(tenantColumn, s, k, last, AppendTenantToInsertSql(true, tenantColumn, Some(s)).value);
  }

  /** Where ") VALUES" occurs in the upper-cased text, the original text has a ')'. */
  lemma MarkerStartsWithParen(s: string, k: int)
    requires OccursAt(ToUpper(s), VALUES_MARKER, k)
    ensures s[k] == ')'
  {
    assert ToUpper(s)[k..k + |VALUES_MARKER|] == VALUES_MARKER;
    assert ToUpperChar(s[k]) == ToUpper(s)[k] == ')';
  }

  lemma InsertedPieces(tenantColumn: string, s: string, k: int, last: int, r: string)
    requires 0 <= k < last < |s| && s[k] == ')' && s[last] == ')'
    requires r == s[..k] + ", " + tenantColumn + ")" + s[k + 1..last] + ", :" + TENANT_PARAM_NAME + ")"
    ensures r == s[..k] + ", " + tenantColumn + s[k..last] + ", :" + TENANT_PARAM_NAME + s[last..last + 1]
  {
    assert s[k..last] == ")" + s[k + 1..last];
    assert s[last..last + 1] == ")";
  }

  /** A rewritten INSERT mentions the tenant column. */
  lemma InsertRewriteMentionsColumn(tenantEnabled: bool, tenantColumn: string, s: string)
    ensures Contains(ToLower(AppendTenantToInsertSql(tenantEnabled, tenantColumn, Some(s)).value), ToLower(tenantColumn))
      || AppendTenantToInsertSql(tenantEnabled, tenantColumn, Some(s)) == Some(s)
  {
    var r := AppendTenantToInsertSql(tenantEnabled, tenantColumn, Some(s));
    if r != Some(s) {
      var k := IndexOf(ToUpper(s), VALUES_MARKER);
      var last := LastIndexOfChar(s, ')');
      var tail := ")" + s[k + 1..last] + ", :" + TENANT_PARAM_NAME + ")";
      assert r.value == s[..k] + ", " + tenantColumn + tail;
      ContainsMiddle(s[..k] + ", ", tenantColumn, tail);
      assert r.value == (s[..k] + ", ") + tenantColumn + tail;
      ContainsToLower(r.value, tenantColumn);
    }
  }

  /** Applying the INSERT rewrite twice is the same as applying it once. */
  lemma InsertRewriteIdempotent(tenantEnabled: bool, tenantColumn: string, sql: Option<string>)
    ensures AppendTenantToInsertSql(tenantEnabled, tenantColumn, AppendTenantToInsertSql(tenantEnabled, tenantColumn, sql))
      == AppendTenantToInsertSql(tenantEnabled, tenantColumn, sql)
  {
    if sql.Some? {
      InsertRewriteMentionsColumn(tenantEnabled, tenantColumn, sql.value);
    }
  }
}
