/** SqlBuilder: the per-dialect pagination wrappers around a query, and its ASCII
    lower-casing helper. */
module SqlBuilder {
  import opened Wrappers
  import opened Text
  import opened CommonUtils

  /** The page request: first row offset, page size, and the optional sort property and
      direction (None is null). */
  datatype Pager = Pager(startRow: int, pageSize: int, sort: Option<string>, order: Option<string>)

  /** StringUtils.hasText on a possibly null string. */
  predicate HasTextOpt(s: Option<string>)
  {
    s.Some? && HasText(s.value)
  }

  datatype Dialect = MySql | Oracle | SqlServer | PostgreSql

  /** The dialect buildPagerSql picks for the database type code: 1 (MySQL) and 4
      (KingbaseES) and every unknown code use the MySQL form. */
  function DialectOf(dbType: int): (d: Dialect)
    ensures d == Oracle <==> dbType == 2
    ensures d == SqlServer <==> dbType == 3
    ensures d == PostgreSql <==> dbType == 5
    ensures d == MySql <==> dbType != 2 && dbType != 3 && dbType != 5
  {
    if dbType == 1 || dbType == 4 then MySql
    else if dbType == 2 then Oracle
    else if dbType == 3 then SqlServer
    else if dbType == 5 then PostgreSql
    else MySql
  }

  /** The ORDER BY every dialect inserts when both the sort property and the direction have
      text; the property name is converted to its column name. */
  function OrderByClause(pager: Pager): (r: string)
    ensures r != "" <==> HasTextOpt(pager.sort) && HasTextOpt(pager.order)
  {
    if HasTextOpt(pager.sort) && HasTextOpt(pager.order) then
      " order by " + ToUnderscore(pager.sort.value) + " " + pager.order.value
    else ""
  }

  /** The paging clause that ends each dialect's text. */
  function PagingClause(d: Dialect, pager: Pager): string
  {
    match d
    case MySql => " limit " + IntToString(pager.startRow) + "," + IntToString(pager.pageSize)
    case PostgreSql => " OFFSET " + IntToString(pager.startRow) + " LIMIT " + IntToString(pager.pageSize)
    case Oracle =>
      " ) row_ where rownum <= " + IntToString(pager.startRow + pager.pageSize)
      + ") where rownum_userforpage > " + IntToString(pager.startRow)
    case SqlServer =>
      " ) t )tt )ttt where tempRowNumber > " + IntToString(pager.startRow)
      + " and tempRowNumber <= " + IntToString(pager.startRow + pager.pageSize)
  }

  /** What each dialect writes in front of the query, and right after it. */
  function Opening(d: Dialect): string
  {
    match d
    case MySql => " select * from ( "
    case PostgreSql => " select * from ( "
    case Oracle => "select * from ( select row_.*, rownum rownum_userforpage from ( " + " select * from ( "
    case SqlServer =>
      " select * from ( select row_number()over(order by __tc__)tempRowNumber,* from (select    __tc__=0, *  from ( "
      + " select top 100 percent * from ( "
  }

  function Closing(d: Dialect): string
  {
    match d
    case MySql => " ) as _mysqltb_ "
    case PostgreSql => " ) as _pgsqltb_ "
    case Oracle => " )  as _oracletb_  "
    case SqlServer => " )  as _sqlservertb_  "
  }

  /** Java regex `\s`. */
  predicate RegexSpace(c: char)
  {
    c == ' ' || c == '\t' || c == '\n' || c == '\U{B}' || c == '\U{C}' || c == '\r'
  }

  /** The first index at or after i that is not a `\s` character. */
  function SkipSpaces(s: string, i: nat): (r: nat)
    requires i <= |s|
    ensures i <= r <= |s|
    ensures forall j :: i <= j < r ==> RegexSpace(s[j])
    ensures r < |s| ==> !RegexSpace(s[r])
    decreases |s| - i
  {
    if i < |s| && RegexSpace(s[i]) then SkipSpaces(s, i + 1) else i
  }

  /** Where a match of `^\s*[sS][eE][lL][eE][cC][tT]\s+` ends, if the text has one. */
  function LeadingSelectEnd(s: string): (r: Option<nat>)
    ensures r.Some? ==> r.value <= |s|
  {
    var i := SkipSpaces(s, 0);
    if i + 6 < |s| && ToLower(s[i..i + 6]) == "select" && RegexSpace(s[i + 6]) then Some(SkipSpaces(s, i + 6))
    else None
  }

  /** buildSqlServerPagerSql's replaceFirst: a leading SELECT keyword becomes
      "select top <start + size> ". */
  function SqlServerTop(sql: string, pager: Pager): (r: string)
    ensures LeadingSelectEnd(sql).None? ==> r == sql
    ensures LeadingSelectEnd(sql).Some? ==>
      r == "select top " + IntToString(pager.startRow + pager.pageSize) + " " + sql[LeadingSelectEnd(sql).value..]
      && (LeadingSelectEnd(sql).value < |sql| ==> !RegexSpace(sql[LeadingSelectEnd(sql).value]))
  {
    match LeadingSelectEnd(sql)
    case None => sql
    case Some(k) => "select top " + IntToString(pager.startRow + pager.pageSize) + " " + sql[k..]
  }

  /** The query as a dialect embeds it. */
  function EmbeddedQuery(d: Dialect, sql: string, pager: Pager): string
  {
    if d == SqlServer then SqlServerTop(sql, pager) else sql
  }

  /** buildPagerSql with the database type code SqlBuilder.type. */
  function BuildPagerSql(dbType: int, sql: string, pager: Pager): (r: string)
    ensures StartsWith(r, Opening(DialectOf(dbType)))
    ensures EndsWith(r, PagingClause(DialectOf(dbType), pager))
  {
    var d := DialectOf(dbType);
    StartsWithConcat(Opening(d), EmbeddedQuery(d, sql, pager));
    StartsWithExtend(Opening(d) + EmbeddedQuery(d, sql, pager), Opening(d), Closing(d));
    StartsWithExtend(Opening(d) + EmbeddedQuery(d, sql, pager) + Closing(d), Opening(d), OrderByClause(pager));
    StartsWithExtend(Opening(d) + EmbeddedQuery(d, sql, pager) + Closing(d) + OrderByClause(pager), Opening(d), PagingClause(d, pager));
    EndsWithConcat(Opening(d) + EmbeddedQuery(d, sql, pager) + Closing(d) + OrderByClause(pager), PagingClause(d, pager));
    Opening(d) + EmbeddedQuery(d, sql, pager) + Closing(d) + OrderByClause(pager) + PagingClause(d, pager)
  }

  lemma ConcatLayout(opening: string, query: string, closing: string, order: string, paging: string)
    ensures StartsWith(opening + query + closing + order + paging, opening + query + closing)
    ensures EndsWith(opening + query + closing + order + paging, order + paging)
    ensures Contains(opening + query + closing + order + paging, query)
  {
    var r := opening + query + closing + order + paging;
    assert r == opening + query + closing + (order + paging);
    assert r[..|opening + query + closing|] == opening + query + closing;
    assert r[|r| - |order + paging|..] == order + paging;
    ContainsMiddle(opening, query, closing + (order + paging));
    assert r == opening + query + (closing + (order + paging));
  }

  /** Every dialect keeps the query (for SQL Server, after its SELECT keyword has become
      SELECT TOP) whole inside its wrapper, and puts the ORDER BY, when there is one, after
      the wrapper and right before the paging clause, which ends the text. */
  lemma PagerSqlLayout(dbType: int, sql: string, pager: Pager)
    ensures var d := DialectOf(dbType);
      var r := BuildPagerSql(dbType, sql, pager);
      && StartsWith(r, Opening(d) + EmbeddedQuery(d, sql, pager) + Closing(d))
      && EndsWith(r, OrderByClause(pager) + PagingClause(d, pager))
      && Contains(r, EmbeddedQuery(d, sql, pager))
      && (d != SqlServer ==> Contains(r, sql))
  {
    var d := DialectOf(dbType);
    ConcatLayout(Opening(d), EmbeddedQuery(d, sql, pager), Closing(d), OrderByClause(pager), PagingClause(d, pager));
  }

  /** isBigChr: '@' < c < '['. */
  function IsBigChr(c: char): (r: bool)
    ensures r <==> 'A' <= c <= 'Z'
  {
    '@' < c < '['
  }

  /** CnvSmallChr: lower-cases 'A'..'Z' in a copy of the text, in place in a char array. */
  method CnvSmallChr(str: string) returns (r: string)
    ensures r == ToLower(str)
  {
    var chrArry := new char[|str|](i requires 0 <= i < |str| => str[i]);
    var i := 0;
    while i < chrArry.Length
      invariant 0 <= i <= chrArry.Length == |str|
      invariant forall j :: 0 <= j < i ==> chrArry[j] == ToLowerChar(str[j])
      invariant forall j :: i <= j < chrArry.Length ==> chrArry[j] == str[j]
    {
      if IsBigChr(chrArry[i]) {
        chrArry[i] := (chrArry[i] as int + ' ' as int) as char;
      }
      i := i + 1;
    }
    r := chrArry[..];
  }

  /** Exactly the letters 'A'..'Z' change, each to its lower-case letter; the length is
      kept. */
  lemma CnvSmallChrExact(s: string)
    ensures |ToLower(s)| == |s|
    ensures forall i :: 0 <= i < |s| && IsBigChr(s[i]) ==> ToLower(s)[i] == (s[i] as int + 32) as char && IsLower(ToLower(s)[i])
    ensures forall i :: 0 <= i < |s| && !IsBigChr(s[i]) ==> ToLower(s)[i] == s[i]
  {
  }
}
