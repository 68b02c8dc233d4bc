# myjpa condition injection, in Dafny

This project models the core of myjpa, a small JDBC persistence library for Spring.

The centre of the model is the condition-injection engine of `JSqlDynamicSqlParser`. It takes a
parsed `SELECT` and adds two kinds of predicate to every table reference that needs them:
- a logical-delete predicate, `ref.del_column = <undeleted value>`;
- a tenant predicate, `ref.tenant_id = :myjpaTenantId`.

The engine has three passes: delete-only (`appendDeleteCondition`), tenant-only
(`appendTenantCondition`) and unified (`appendConditions`). They share one specification in
`ConditionEngine`, parameterised by a `Mode`. For each plain select, a pass:
- discovers the FROM table and each JOIN right-hand table;
- classifies each one by join kind;
- asks the registry for its delete descriptor and whether it has a tenant column;
- skips any predicate the original WHERE already constrains;
- merges the predicates into WHERE (for the FROM table and INNER/FULL joins), or into the
  owning join's single ON expression (for LEFT/RIGHT joins);
- recurses into sub-selects in FROM and JOIN positions, in set-operation branches, and in the
  select list and WHERE.

`ConditionProcessing` holds the source's loops as methods. Each method is proved to compute the
specification function. `ConditionProperties` proves where predicates land, what the idempotency
check recognises, and that a second pass owes nothing more to WHERE. `DynamicSqlParser` holds the
text-level entry points and the INSERT rewriter `appendTenantToInsertSql`.

The supporting parts are:
- the table registry, `TableCacheManager`;
- the tenant plumbing: `TenantContext`, `TenantAwareSqlParameterSource`, and the routing
  decisions of `BaseDaoImpl`;
- the SQL text builders: `SqlParser`, `SqlBuilder`, and the lambda query API
  (`LambdaQueryWrapper`, `LambdaUtils`);
- the name conversions of `CommonUtils` and the key table of `MyBeanPropertyRowMapper`;
- the start-up schema check, `DatabaseSchemaValidator`;
- the inherited field list of `MyReflectionUtils`;
- the compile-time check of `MyTableAnnotationProcessor`.

Parsing SQL text and printing the statement tree are parameters (`SqlLibrary`). So are the
database answers the schema check reads (`Schema`), the elements an annotation round sees
(`Round`), and the tenant provider bean. Java strings are ASCII `seq<char>`. A Java null is
`Option`'s `None` where the source distinguishes it.

Two behaviours of the code are easy to misread, and the model states what the code does:
- The WHERE test is called an idempotency check in the source
  (JSqlDynamicSqlParser.java:216 and :290), and TenantIsolationTest.java:284-290 expects a second
  tenant-only pass over a single-table select to change nothing. That holds for WHERE. It does
  not hold for the unified pass over LEFT/RIGHT joins: its ON merge has no text guard, and
  discovery looks only at WHERE, so a second unified pass adds those ON predicates again. The
  model proves the parts that hold:
  - a second pass owes nothing to WHERE (`SecondPassOwesNothingToWhere`);
  - a select owing nothing to any ON is rewritten idempotently (`FlatRewriteIsIdempotent`).
- `containsDeleteColumn` is commented as a test of comparisons (=, !=, <>, IS, IS NOT;
  JSqlDynamicSqlParser.java:872). It accepts any binary expression whose left operand is the
  column, arithmetic and LIKE included, and descends through AND and OR only
  (`ContainsColumnIffVisited`).

## Model

All source paths are under `src/main/java/io/github/mocanjie/base/myjpa/` unless they are test files.

| member | source | states |
|---|---|---|
| `ConditionEngine.GetJoinType` | src/main/java/io/github/mocanjie/base/myjpa/parser/JSqlDynamicSqlParser.java:735-746 | The join kind depends on the flags, each case as an iff: LEFT iff the left flag is set; RIGHT iff right is set and left is not; FULL iff only full is set; INNER iff none is set. A join is never the FROM table. |
| `ConditionEngine.TableConditions` | src/main/java/io/github/mocanjie/base/myjpa/parser/JSqlDynamicSqlParser.java:701-730 | In one pass a table receives at most one predicate per kind: at most one in the delete-only or tenant-only pass, at most two in the unified pass. Each predicate is an equality of a column with a long or with the tenant placeholder. |
| `ConditionEngine.AddTable` | src/main/java/io/github/mocanjie/base/myjpa/parser/JSqlDynamicSqlParser.java:436-475 | Adding one table reference keeps every WHERE-bucket entry an injected predicate. Every ON-bucket entry stays non-empty and tied to its join. |
| `ConditionEngine.CollectJoins` | src/main/java/io/github/mocanjie/base/myjpa/parser/JSqlDynamicSqlParser.java:602-614 | The join loop keeps both bucket invariants. |
| `ConditionEngine.Discover` | src/main/java/io/github/mocanjie/base/myjpa/parser/JSqlDynamicSqlParser.java:584-614 | Discovery on a plain select yields only injected predicates for WHERE, and well-formed entries for ON. |
| `ConditionEngine.MergeWhere` | src/main/java/io/github/mocanjie/base/myjpa/parser/JSqlDynamicSqlParser.java:617-626 | WHERE is left untouched when nothing is owed. Otherwise a WHERE exists afterwards. |
| `ConditionEngine.MergeOn` | src/main/java/io/github/mocanjie/base/myjpa/parser/JSqlDynamicSqlParser.java:752-802 | After the merge the join holds exactly one ON expression, unless the text guard found the column already mentioned. In that case the ON expressions are unchanged. |
| `ConditionEngine.ApplyOn` | src/main/java/io/github/mocanjie/base/myjpa/parser/JSqlDynamicSqlParser.java:628-633 | The ON loop keeps the number of joins. It changes nothing of a join except its ON expressions. |
| `ConditionEngine.RewriteSelect` | src/main/java/io/github/mocanjie/base/myjpa/parser/JSqlDynamicSqlParser.java:573-579 | A set operation keeps its operators and branch count, and each branch gets its own pass. Statements that are neither plain selects nor set operations are returned unchanged. |
| `ConditionEngine.RewriteBranches` | src/main/java/io/github/mocanjie/base/myjpa/parser/JSqlDynamicSqlParser.java:642-646 | Each branch of a set operation yields exactly one rewritten branch. |
| `ConditionEngine.RewritePlain` | src/main/java/io/github/mocanjie/base/myjpa/parser/JSqlDynamicSqlParser.java:584-637 | A pass keeps HAVING, the number of select items and the number of joins. A FROM or JOIN table that is not a sub-select stays where it is. Join flags are untouched. |
| `ConditionEngine.RewriteFrom` | src/main/java/io/github/mocanjie/base/myjpa/parser/JSqlDynamicSqlParser.java:593-600 | Only a parenthesised sub-select in FROM is rewritten, and it stays a sub-select. |
| `ConditionEngine.RewriteJoinItems` | src/main/java/io/github/mocanjie/base/myjpa/parser/JSqlDynamicSqlParser.java:603-613 | Only a sub-select on the right of a join is rewritten. Every other part of every join is kept. |
| `ConditionEngine.RewriteItems` | src/main/java/io/github/mocanjie/base/myjpa/parser/JSqlDynamicSqlParser.java:668-672 | The select list keeps its length. |
| `ConditionEngine.SearchWhere` | src/main/java/io/github/mocanjie/base/myjpa/parser/JSqlDynamicSqlParser.java:651-663 | The sub-select search neither removes nor creates a WHERE. |
| `ConditionEngine.IsTargetColumn` | src/main/java/io/github/mocanjie/base/myjpa/parser/JSqlDynamicSqlParser.java:906-932 | A match is always a column whose name equals the target column ignoring case. An unqualified column matches iff the names agree. A column qualified by neither the table name nor the alias never matches. |
| `ConditionEngine.ContainsColumn` | src/main/java/io/github/mocanjie/base/myjpa/parser/JSqlDynamicSqlParser.java:867-901 | Only a binary expression can contain the column. A binary node that constrains the column directly is found. For a node other than AND/OR the search answers exactly whether the node itself constrains the column (the full iff over AND/OR trees is ContainsColumnIffVisited). |
| `ConditionEngine.ConditionExists` | src/main/java/io/github/mocanjie/base/myjpa/parser/JSqlDynamicSqlParser.java:856-862 | An existing condition needs a WHERE that is a binary expression. A WHERE that itself constrains the column always counts as existing. |
| `ConditionEngine.DeleteConditionForJoin` | src/main/java/io/github/mocanjie/base/myjpa/parser/JSqlDynamicSqlParser.java:937-951 | The predicate is an injected equality of the delete column with the live-row value. It is qualified iff the alias is present and not blank. The column search finds it under every table name with that alias. |
| `ConditionEngine.DeleteConditionForTable` | src/main/java/io/github/mocanjie/base/myjpa/parser/JSqlDynamicSqlParser.java:956-969 | The predicate is an injected equality of the delete column with the live-row value, always qualified. The column search finds it for that table's alias and name. |
| `ConditionEngine.TenantCondition` | src/main/java/io/github/mocanjie/base/myjpa/parser/JSqlDynamicSqlParser.java:273-287 | The predicate is an injected equality of the tenant column with the named tenant placeholder. It is qualified iff the table reference is not blank. The column search finds it for that reference. |
| `ConditionEngine.FoldAnd` | src/main/java/io/github/mocanjie/base/myjpa/parser/JSqlDynamicSqlParser.java:827-845 | One predicate is returned as it is. Several are joined by AND with the last predicate as the right operand (the full conjunct list is FoldAndConjuncts). |
| `ConditionEngine.RewriteItem` | src/main/java/io/github/mocanjie/base/myjpa/parser/JSqlDynamicSqlParser.java:668-672 | A select item stays a sub-select iff it was one, and stays a binary expression iff it was one. In the tenant and unified passes, an item that is not a sub-select is returned unchanged. |
| `ConditionEngine.Search` | src/main/java/io/github/mocanjie/base/myjpa/parser/JSqlDynamicSqlParser.java:677-695 | The expression walk keeps the kind of every node: sub-select, AND, OR and binary nodes map to nodes of the same kind, a binary node keeps its operator, an IN keeps its left side, its negation and whether it has a right side, and leaves are unchanged. Its partners are SearchFreeUnchanged and SearchPreservesContainsColumn. |
| `ConditionProcessing.BuildConditionsExpression` | src/main/java/io/github/mocanjie/base/myjpa/parser/JSqlDynamicSqlParser.java:827-845 | The loop builds the left-associated AND chain of the predicates, in order. |
| `ConditionProcessing.MergeJoinOn` | src/main/java/io/github/mocanjie/base/myjpa/parser/JSqlDynamicSqlParser.java:752-802 | The ON update of one join computes the specified merge, text guard included. |
| `ConditionProcessing.ApplyJoinConditions` | src/main/java/io/github/mocanjie/base/myjpa/parser/JSqlDynamicSqlParser.java:628-633 | The loop over the ON entries, in discovery order, computes the specified ON update. |
| `ConditionProcessing.ProcessSelect` | src/main/java/io/github/mocanjie/base/myjpa/parser/JSqlDynamicSqlParser.java:573-579 | Dispatching on the statement kind computes the specified rewrite of the statement. |
| `ConditionProcessing.ProcessPlainSelect` | src/main/java/io/github/mocanjie/base/myjpa/parser/JSqlDynamicSqlParser.java:584-637 | Discovery, the WHERE merge, the ON loop and the sub-select search together compute the specified rewrite of a plain select. |
| `ConditionProcessing.CollectConditions` | src/main/java/io/github/mocanjie/base/myjpa/parser/JSqlDynamicSqlParser.java:590-614 | The discovery half yields the specified buckets. FROM and JOIN sub-selects are rewritten on the way. |
| `ConditionProcessing.CollectJoinConditions` | src/main/java/io/github/mocanjie/base/myjpa/parser/JSqlDynamicSqlParser.java:602-614 | The join loop yields the specified buckets and the joins with rewritten sub-selects. |
| `ConditionProcessing.ProcessSelectItems` | src/main/java/io/github/mocanjie/base/myjpa/parser/JSqlDynamicSqlParser.java:651-663 | The select-list loop rewrites each item as specified. |
| `ConditionProperties.ContainsColumnIffVisited` | src/main/java/io/github/mocanjie/base/myjpa/parser/JSqlDynamicSqlParser.java:867-901 | The idempotency check holds iff some node reachable through AND and OR alone is a binary expression whose left operand is the target column. |
| `ConditionProperties.FoldAndConjuncts` | src/main/java/io/github/mocanjie/base/myjpa/parser/JSqlDynamicSqlParser.java:827-845 | Folding the predicates into an AND chain keeps every predicate, in order. |
| `ConditionProperties.MergeWhereConjuncts` | src/main/java/io/github/mocanjie/base/myjpa/parser/JSqlDynamicSqlParser.java:617-626 | After the WHERE update, the conjuncts are the old WHERE's conjuncts followed by the injected predicates, in discovery order. |
| `ConditionProperties.MergeOnConjuncts` | src/main/java/io/github/mocanjie/base/myjpa/parser/JSqlDynamicSqlParser.java:752-802 | An unguarded ON merge leaves one expression. Its conjuncts are the old ON expressions' conjuncts followed by the new predicates. |
| `ConditionProperties.SearchFreeUnchanged` | src/main/java/io/github/mocanjie/base/myjpa/parser/JSqlDynamicSqlParser.java:677-695 | An expression without sub-selects comes out of the search unchanged. |
| `ConditionProperties.FoldOfInjectedIsSearchFree` | src/main/java/io/github/mocanjie/base/myjpa/parser/JSqlDynamicSqlParser.java:937-969 | The AND chain of injected predicates holds no sub-select. |
| `ConditionProperties.SearchCommutesWithMerge` | src/main/java/io/github/mocanjie/base/myjpa/parser/JSqlDynamicSqlParser.java:617-636 | Searching the merged WHERE for sub-selects, as the source does, gives the WHERE of the specification. The specification searches first and merges after. |
| `ConditionProperties.SearchPreservesContainsColumn` | src/main/java/io/github/mocanjie/base/myjpa/parser/JSqlDynamicSqlParser.java:677-695 | The idempotency check gives the same answer before and after the sub-select search. |
| `ConditionProperties.ConjunctConstrains` | src/main/java/io/github/mocanjie/base/myjpa/parser/JSqlDynamicSqlParser.java:886-891 | A conjunct that constrains the column makes the whole AND chain count as constraining it. |
| `ConditionProperties.InjectedConstrainsOwnTable` | src/main/java/io/github/mocanjie/base/myjpa/parser/JSqlDynamicSqlParser.java:956-969 | The idempotency check recognises every predicate built for a table as constraining that table's delete or tenant column. |
| `ConditionProperties.MergedWhereKeepsConstraints` | src/main/java/io/github/mocanjie/base/myjpa/parser/JSqlDynamicSqlParser.java:856-862 | A column the WHERE constrained before the pass is still constrained after it. |
| `ConditionProperties.TableCoveredAfterMerge` | src/main/java/io/github/mocanjie/base/myjpa/parser/JSqlDynamicSqlParser.java:706-709 | Suppose all of a table's predicates were merged into WHERE. Then a later pass owes that table nothing, whatever its join kind then. |
| `ConditionProperties.DeleteCoveredAfterMerge` | src/main/java/io/github/mocanjie/base/myjpa/parser/JSqlDynamicSqlParser.java:706-709 | Once a table's predicates are merged, its active delete column is found in WHERE. |
| `ConditionProperties.TenantCoveredAfterMerge` | src/main/java/io/github/mocanjie/base/myjpa/parser/JSqlDynamicSqlParser.java:212-220 | Once a table's predicates are merged, its active tenant column is found in WHERE. |
| `ConditionProperties.CollectJoinsOnEntriesSound` | src/main/java/io/github/mocanjie/base/myjpa/parser/JSqlDynamicSqlParser.java:713-718 | Each ON entry belongs to an existing join and is the entry that join owes. The entries come in join order. |
| `ConditionProperties.CollectJoinsOnEntriesComplete` | src/main/java/io/github/mocanjie/base/myjpa/parser/JSqlDynamicSqlParser.java:713-718 | Every LEFT/RIGHT join that owes predicates has its entry. |
| `ConditionProperties.CollectJoinsWhereAt` | src/main/java/io/github/mocanjie/base/myjpa/parser/JSqlDynamicSqlParser.java:713-722 | Every predicate of an INNER or FULL join table is in the WHERE bucket. |
| `ConditionProperties.CollectJoinsWhereUnchanged` | src/main/java/io/github/mocanjie/base/myjpa/parser/JSqlDynamicSqlParser.java:602-614 | When no WHERE-position join owes anything, the WHERE bucket stays as it was. |
| `ConditionProperties.CollectJoinsNothingOwed` | src/main/java/io/github/mocanjie/base/myjpa/parser/JSqlDynamicSqlParser.java:602-614 | When no joined table owes anything, the join loop changes neither bucket. |
| `ConditionProperties.ApplyOnUntouched` | src/main/java/io/github/mocanjie/base/myjpa/parser/JSqlDynamicSqlParser.java:628-633 | A join without an ON entry keeps its ON expressions. |
| `ConditionProperties.ApplyOnMerged` | src/main/java/io/github/mocanjie/base/myjpa/parser/JSqlDynamicSqlParser.java:628-633 | A join with an ON entry ends with that entry merged into its original ON expressions. |
| `ConditionProperties.WherePlacement` | src/main/java/io/github/mocanjie/base/myjpa/parser/JSqlDynamicSqlParser.java:617-626 | After a pass, WHERE's conjuncts are its old conjuncts (searched for sub-selects) followed by every predicate owed to WHERE, in discovery order. |
| `ConditionProperties.FromAndInnerJoinsGoToWhere` | src/main/java/io/github/mocanjie/base/myjpa/parser/JSqlDynamicSqlParser.java:713-722 | The FROM table's predicates open the WHERE bucket. Every INNER or FULL join table's predicates are in it too. |
| `ConditionProperties.OnPlacement` | src/main/java/io/github/mocanjie/base/myjpa/parser/JSqlDynamicSqlParser.java:713-718 | A LEFT or RIGHT join table that owes predicates gets them merged into its own join's ON. Every other join keeps its ON expressions. |
| `ConditionProperties.SecondPassOwesNothingToWhere` | src/main/java/io/github/mocanjie/base/myjpa/parser/JSqlDynamicSqlParser.java:706-709 | After any pass, a second pass of the same kind finds nothing owed to WHERE. |
| `ConditionProperties.FlatPassKeepsShape` | src/main/java/io/github/mocanjie/base/myjpa/parser/JSqlDynamicSqlParser.java:584-637 | Take a select without sub-selects whose joins owe nothing to ON. A pass changes only WHERE, by the merge, and the result has no sub-selects. |
| `ConditionProperties.FlatPassOwesNothing` | src/main/java/io/github/mocanjie/base/myjpa/parser/JSqlDynamicSqlParser.java:706-709 | After such a pass, no table owes anything. |
| `ConditionProperties.FlatFromCovered` | src/main/java/io/github/mocanjie/base/myjpa/parser/JSqlDynamicSqlParser.java:593-595 | After such a pass, the FROM table owes nothing more. |
| `ConditionProperties.FlatJoinCovered` | src/main/java/io/github/mocanjie/base/myjpa/parser/JSqlDynamicSqlParser.java:604-608 | After such a pass, no joined table owes anything more. |
| `ConditionProperties.FlatOwingNothingIsFixed` | src/main/java/io/github/mocanjie/base/myjpa/parser/JSqlDynamicSqlParser.java:617-633 | A select without sub-selects in which no table owes anything is left exactly as it is. |
| `ConditionProperties.FlatRewriteIsIdempotent` | src/main/java/io/github/mocanjie/base/myjpa/parser/JSqlDynamicSqlParser.java:584-637 | For a select without sub-selects whose joins owe nothing to ON, two passes give the same tree as one. |
| `ConditionProperties.SingleTableWhere` | src/main/java/io/github/mocanjie/base/myjpa/parser/JSqlDynamicSqlParser.java:161-203 | A single-table select without WHERE gets exactly the table's own predicates, folded, as its WHERE. In the tenant-only pass a tenant table gets exactly one placeholder predicate. |
| `ConditionProperties.SingleTenantTableWhere` | src/main/java/io/github/mocanjie/base/myjpa/parser/JSqlDynamicSqlParser.java:148-156 | For a single tenant table whose WHERE does not yet mention the tenant column, the tenant pass ANDs exactly one tenant predicate after the searched WHERE, or makes it the WHERE when there is none. |
| `ConditionProperties.SetOperationBranchesGetOneTenantPredicate` | src/main/java/io/github/mocanjie/base/myjpa/parser/JSqlDynamicSqlParser.java:642-646 | A UNION or other set operation keeps its operators and branch count, and each single-table branch gains exactly one tenant predicate in its own WHERE. |
| `DynamicSqlParser.RewriteSqlText` | src/main/java/io/github/mocanjie/base/myjpa/parser/JSqlDynamicSqlParser.java:85-101 | Text that does not parse as a SELECT is returned unchanged. Otherwise the result is the printed rewritten tree. |
| `DynamicSqlParser.AppendDeleteCondition` | src/main/java/io/github/mocanjie/base/myjpa/parser/JSqlDynamicSqlParser.java:77-102 | Null stays null. Blank text and non-SELECT text are returned unchanged. Any other text gets the delete-only rewrite. |
| `DynamicSqlParser.AppendTenantCondition` | src/main/java/io/github/mocanjie/base/myjpa/parser/JSqlDynamicSqlParser.java:119-143 | As above, and the text is also returned unchanged while tenant isolation is off or skipped. Otherwise the text gets the tenant-only rewrite. |
| `DynamicSqlParser.AppendConditions` | src/main/java/io/github/mocanjie/base/myjpa/parser/JSqlDynamicSqlParser.java:358-377 | Null stays null. Blank text and non-SELECT text are returned unchanged. Any other text gets the unified rewrite, in one parse. |
| `DynamicSqlParser.AppendTenantToInsertSql` | src/main/java/io/github/mocanjie/base/myjpa/parser/JSqlDynamicSqlParser.java:57-69 | Null stays null and text stays text. The INSERT is unchanged when tenant isolation is off or when the text already names the tenant column, ignoring case. |
| `DynamicSqlParser.InsertRewriteShape` | src/main/java/io/github/mocanjie/base/myjpa/parser/JSqlDynamicSqlParser.java:61-68 | A rewritten INSERT has ", column" spliced before the first ") VALUES" and ", :myjpaTenantId" spliced before the last ')'. Text after that last ')' is dropped, and everything else is kept in order. |
| `DynamicSqlParser.InsertRewriteMentionsColumn` | src/main/java/io/github/mocanjie/base/myjpa/parser/JSqlDynamicSqlParser.java:57-69 | After the rewrite, an INSERT that was changed or already named the column names the tenant column. |
| `DynamicSqlParser.InsertRewriteIdempotent` | src/main/java/io/github/mocanjie/base/myjpa/parser/JSqlDynamicSqlParser.java:57-69 | Rewriting an INSERT twice gives the same text as rewriting it once. |
| `TableCache.DeleteInfo.UnDelValue` | src/main/java/io/github/mocanjie/base/myjpa/cache/TableCacheManager.java:67-69 | The live-row value is 1 exactly when the delete value is 0, and 0 otherwise. For a 0/1 flag it differs from the delete value. |
| `TableCache.Registry.WithEntity` | src/main/java/io/github/mocanjie/base/myjpa/cache/TableCacheManager.java:110-112 | Registering an annotated class makes it findable by its class name and by every case variant of its table name. The table name is returned as written. Other classes and the tenant set are untouched. Classes without @MyTable change nothing. |
| `TableCache.Registry.DeleteInfoByTableName` | src/main/java/io/github/mocanjie/base/myjpa/cache/TableCacheManager.java:129-132 | A null name finds nothing. A found descriptor is one of the registered descriptors, and the name, lower-cased, is a registered table name. |
| `TableCache.Registry.DeleteInfoByClassName` | src/main/java/io/github/mocanjie/base/myjpa/cache/TableCacheManager.java:140-143 | A null class name finds nothing. A found descriptor is one of the registered descriptors, and the class is registered. |
| `TableCache.Registry.TableNameByClass` | src/main/java/io/github/mocanjie/base/myjpa/cache/TableCacheManager.java:162-165 | A table name is found iff the class name is present and registered, and it is one of the registered table names. |
| `TableCache.Registry.HasDeleteCondition` | src/main/java/io/github/mocanjie/base/myjpa/cache/TableCacheManager.java:173-175 | A table with a delete condition is registered under its lower-case name. |
| `TableCache.Registry.HasTenantColumn` | src/main/java/io/github/mocanjie/base/myjpa/parser/JSqlDynamicSqlParser.java:212 | A table has the tenant column only if some registered tenant table equals its name ignoring case; with no tenant tables, none has it. |
| `TableCache.Registry.MarkDeleteFieldAsInvalid` | src/main/java/io/github/mocanjie/base/myjpa/validation/DatabaseSchemaValidator.java:113 | Marking clears the valid flag of the table's descriptor, and every class sharing that descriptor sees the change. An unknown table changes nothing. Table names and the tenant set are kept. |
| `TableCache.Registry.RegisterTenantTable` | src/test/java/io/github/mocanjie/base/myjpa/test/TenantIsolationTest.java:36 | Afterwards a table has a tenant column iff it had one before or its name equals the registered one ignoring case. |
| `TableCache.EmptyRegistry` | src/main/java/io/github/mocanjie/base/myjpa/cache/TableCacheManager.java:190-195 | No table name, class name or class has a descriptor or a table name. |
| `TableCache.ScanRegistersEveryAnnotatedClass` | src/main/java/io/github/mocanjie/base/myjpa/cache/TableCacheManager.java:93-121 | Every annotated class scanned ends up in all three maps. |
| `TableCache.LaterTableOverwrites` | src/main/java/io/github/mocanjie/base/myjpa/cache/TableCacheManager.java:110-112 | A later class whose table name differs only in case replaces the earlier descriptor. |
| `TableCache.ScanPreservesValid` | src/main/java/io/github/mocanjie/base/myjpa/cache/TableCacheManager.java:93-121 | Scanning keeps the registry's maps pointing at existing descriptors. |
| `TableCache.TableCacheManager.constructor` | src/main/java/io/github/mocanjie/base/myjpa/cache/TableCacheManager.java:25-39 | The static maps start empty. |
| `TableCache.TableCacheManager.ScanPackage` | src/main/java/io/github/mocanjie/base/myjpa/cache/TableCacheManager.java:93-121 | The loop registers each class in turn, and the registry stays consistent. |
| `TableCache.TableCacheManager.ClearCache` | src/main/java/io/github/mocanjie/base/myjpa/cache/TableCacheManager.java:190-195 | Afterwards the registry is empty. |
| `TableCache.TableCacheManager.MarkDeleteFieldAsInvalid` | src/main/java/io/github/mocanjie/base/myjpa/validation/DatabaseSchemaValidator.java:113 | The state afterwards is the marked registry. |
| `TableCache.TableCacheManager.RegisterTenantTable` | src/test/java/io/github/mocanjie/base/myjpa/test/TenantIsolationTest.java:36 | The state afterwards is the registry with the table added to the tenant set. |
| `Tenant.TenantContext.constructor` | src/main/java/io/github/mocanjie/base/myjpa/tenant/TenantContext.java:34-37 | A fresh thread has no tenant id and is not skipped. |
| `Tenant.TenantContext.SetTenantId` | src/main/java/io/github/mocanjie/base/myjpa/tenant/TenantContext.java:47-49 | Afterwards the tenant id is the given one. The skip switch is untouched. |
| `Tenant.TenantContext.ClearTenantId` | src/main/java/io/github/mocanjie/base/myjpa/tenant/TenantContext.java:62-64 | Afterwards the tenant id reads null. The skip switch is untouched. |
| `Tenant.TenantContext.Skip` | src/main/java/io/github/mocanjie/base/myjpa/tenant/TenantContext.java:72-74 | Afterwards the context is skipped. The tenant id is untouched. |
| `Tenant.TenantContext.Restore` | src/main/java/io/github/mocanjie/base/myjpa/tenant/TenantContext.java:79-81 | Afterwards the context is not skipped. The tenant id is untouched. |
| `Tenant.TenantContext.WithoutTenant` | src/main/java/io/github/mocanjie/base/myjpa/tenant/TenantContext.java:96-103 | The body runs with skip set and its result is returned. Skip is cleared afterwards, even if it was set before. |
| `Tenant.TenantContext.WithoutTenantRun` | src/main/java/io/github/mocanjie/base/myjpa/tenant/TenantContext.java:110-117 | Skip is cleared afterwards, and the tenant id is kept. |
| `Tenant.TenantContext.Clear` | src/main/java/io/github/mocanjie/base/myjpa/tenant/TenantContext.java:123-126 | Both slots are reset. |
| `Tenant.TenantContext.GetTenantId` | src/main/java/io/github/mocanjie/base/myjpa/tenant/TenantContext.java:54-56 | Returns the tenant id slot of the current context. |
| `Tenant.TenantContext.IsSkipped` | src/main/java/io/github/mocanjie/base/myjpa/tenant/TenantContext.java:86-88 | True iff the current context has the skip flag set. |
| `Tenant.GetValue` | src/main/java/io/github/mocanjie/base/myjpa/tenant/TenantAwareSqlParameterSource.java:33-38 | A lookup succeeds exactly when the source has a value for the name. Otherwise it is the map source's IllegalArgumentException. |
| `Tenant.HasValue` | src/main/java/io/github/mocanjie/base/myjpa/tenant/TenantAwareSqlParameterSource.java:25-30 | A name has a value iff some wrapper layer binds it or the base source holds it. |
| `Tenant.GetSqlType` | src/main/java/io/github/mocanjie/base/myjpa/tenant/TenantAwareSqlParameterSource.java:41-46 | A wrapper-bound name has the unknown type; any other name has the base source's type, unknown when the base has none. |
| `Tenant.GetTypeName` | src/main/java/io/github/mocanjie/base/myjpa/tenant/TenantAwareSqlParameterSource.java:49-54 | A type name exists iff the name is not wrapper-bound and the base source has a type name for it, and then it is the base's. |
| `Tenant.TenantOverlay` | src/main/java/io/github/mocanjie/base/myjpa/tenant/TenantAwareSqlParameterSource.java:25-54 | The wrapper answers for the tenant name whatever the delegate holds: it has a value, the value is the tenant id, the type is TYPE_UNKNOWN and the type name is null. Every other name gets the delegate's answers. |
| `Tenant.TenantOverlayIsMapUpdate` | src/main/java/io/github/mocanjie/base/myjpa/tenant/TenantAwareSqlParameterSource.java:18-54 | Wrapping a map source behaves like the same map with the tenant entry put in and its type information dropped. |
| `BaseDao.CurrentTenantId` | src/main/java/io/github/mocanjie/base/myjpa/dao/impl/BaseDaoImpl.java:79-84 | A registered provider wins, even when it answers null. Otherwise the context's tenant id is used. |
| `BaseDao.ApplyConditions` | src/main/java/io/github/mocanjie/base/myjpa/dao/impl/BaseDaoImpl.java:100-116 | The unified rewrite is used iff tenant isolation is on, not skipped, and the tenant id is non-null. Otherwise the delete-only rewrite is used with the parameters unchanged. |
| `BaseDao.ApplyConditionsBindsPlaceholder` | src/main/java/io/github/mocanjie/base/myjpa/dao/impl/BaseDaoImpl.java:107-111 | On the tenant path, SQL mentioning the placeholder has it bound to the non-null current tenant id. Parameters change only when the SQL mentions the placeholder. |
| `BaseDao.GetWriteTenantId` | src/main/java/io/github/mocanjie/base/myjpa/dao/impl/BaseDaoImpl.java:124-128 | The result is null when tenant isolation is off, skipped, or the table has no tenant column. Otherwise it is the current tenant id. |
| `BaseDao.ApplyWriteConditions` | src/main/java/io/github/mocanjie/base/myjpa/dao/impl/BaseDaoImpl.java:134-141 | A null write tenant id leaves SQL and parameters unchanged. Otherwise exactly the tenant suffix is appended and the placeholder is bound. |
| `BaseDao.WriteConditionsBindPlaceholder` | src/main/java/io/github/mocanjie/base/myjpa/dao/impl/BaseDaoImpl.java:134-141 | A changed write statement belongs to a tenant table under an active, non-null tenant. It starts with the original statement and has the placeholder bound to that tenant. Every other parameter keeps its value. |
| `BaseDao.InsertTenantBranch` | src/main/java/io/github/mocanjie/base/myjpa/dao/impl/BaseDaoImpl.java:267-271 | The INSERT is unchanged when the write tenant id is null or the text already names the column. Otherwise the placeholder is bound to the write tenant id. |
| `BaseDao.InsertTenantBranchMentionsColumn` | src/main/java/io/github/mocanjie/base/myjpa/dao/impl/BaseDaoImpl.java:267-271 | After the branch, the INSERT is unchanged or names the tenant column. Running the branch again changes nothing further. |
| `BaseDao.ParseInRange` | src/main/java/io/github/mocanjie/base/myjpa/dao/impl/BaseDaoImpl.java:155-158 | A successful parse yields the decimal value of the text, within the type's range. |
| `BaseDao.SetTenantField` | src/main/java/io/github/mocanjie/base/myjpa/dao/impl/BaseDaoImpl.java:152-164 | A field holding a value is never overwritten. A null tenant id leaves the field null. The field either keeps its value or goes from null to a value. |
| `BaseDao.SetTenantFieldKeepsNumber` | src/main/java/io/github/mocanjie/base/myjpa/dao/impl/BaseDaoImpl.java:152-164 | A numeric tenant id that fits a Long or Integer field is stored as the same number. A String field receives its decimal text. |
| `BaseDao.SetTenantFieldIdempotent` | src/main/java/io/github/mocanjie/base/myjpa/dao/impl/BaseDaoImpl.java:152-160 | Filling the field twice is filling it once. |
| `BaseDao.BatchCount` | src/main/java/io/github/mocanjie/base/myjpa/dao/impl/BaseDaoImpl.java:424 | For a positive batch size the count is the integer ceiling of size over batch size, and positive for a non-empty list. For a negative batch size it is 0. |
| `BaseDao.BatchInsertChunks` | src/main/java/io/github/mocanjie/base/myjpa/dao/impl/BaseDaoImpl.java:422-434 | With a positive batch size the chunks are non-empty and at most batchSize long, all but the last exactly batchSize. Laid end to end they are the input in order. With batch size 0 every chunk is empty. |
| `BaseDao.IdSource` | src/main/java/io/github/mocanjie/base/myjpa/dao/impl/BaseDaoImpl.java:347-349 | The source built for one id binds the primary-key field to that id. |
| `BaseDao.DelByIdsBatch` | src/main/java/io/github/mocanjie/base/myjpa/dao/impl/BaseDaoImpl.java:337-366 | delByIds yields one row per id, and each row with the statement is exactly applyWriteConditions on that id's own source. |
| `BaseDao.DelByIds` | src/main/java/io/github/mocanjie/base/myjpa/dao/impl/BaseDaoImpl.java:343-360 | The two loops compute DelByIdsBatch. |
| `BaseDao.DelByIdsBindsEachRow` | src/main/java/io/github/mocanjie/base/myjpa/dao/impl/BaseDaoImpl.java:343-351 | Every row binds its own id. Under a write tenant it also binds the placeholder to that tenant and the statement ends with the tenant suffix; without one the statement is unchanged. |
| `BaseDao.FillTenant` | src/main/java/io/github/mocanjie/base/myjpa/dao/impl/BaseDaoImpl.java:391-393 | Filling one entity changes only the tenant field, as setTenantField does, and keeps every other property. |
| `BaseDao.BatchInsertRows` | src/main/java/io/github/mocanjie/base/myjpa/dao/impl/BaseDaoImpl.java:371-417 | An empty list returns at once with no rows. A successful batch has one row per entity. The only failure is the catch-all BusinessException("系统错误,请联系管理员"), raised for a non-empty list with a write tenant when underscoreToCamelCase rejects the tenant column. |
| `BaseDao.BatchInsertTenant` | src/main/java/io/github/mocanjie/base/myjpa/dao/impl/BaseDaoImpl.java:372-406 | The fill and wrap loops compute BatchInsertRows. |
| `BaseDao.BatchInsertRowIsInsertBranch` | src/main/java/io/github/mocanjie/base/myjpa/dao/impl/BaseDaoImpl.java:384-406 | Without a write tenant, or when the INSERT lacks the tenant column, every entity of the batch is treated exactly as insertPO's tenant branch treats it alone. |
| `BaseDao.BatchInsertFillsTenantField` | src/main/java/io/github/mocanjie/base/myjpa/dao/impl/BaseDaoImpl.java:385-394 | When the INSERT already names the tenant column, the text is kept, each entity's tenant field is filled as setTenantField fills it, and every other property keeps its value. |
| `Lambda.FieldName` | src/main/java/io/github/mocanjie/base/myjpa/lambda/LambdaUtils.java:24-30 | The field name is never longer than the method name. |
| `Lambda.FieldNameOfGetter` | src/main/java/io/github/mocanjie/base/myjpa/lambda/LambdaUtils.java:24-30 | getFieldName undoes the JavaBeans getter naming (get…/is…) for every field starting with anything but an upper-case letter. |
| `Lambda.GetterName` | src/main/java/io/github/mocanjie/base/myjpa/lambda/LambdaUtils.java:24-29 | A getter name starts with "is" for a boolean field and "get" otherwise, and is that prefix longer than the field; FieldNameOfGetter shows getFieldName undoes it. |
| `Lambda.ColumnName` | src/main/java/io/github/mocanjie/base/myjpa/lambda/LambdaUtils.java:40-57 | A found field with a column annotation gives the annotation's column. Anything else gives the snake_case of the field name. |
| `Lambda.FirstFieldDecides` | src/main/java/io/github/mocanjie/base/myjpa/metadata/TableInfo.java:29-31 | The first field with the name decides the column, whatever fields follow it. |
| `Lambda.ColumnNameRoundTrip` | src/main/java/io/github/mocanjie/base/myjpa/lambda/LambdaUtils.java:52-56 | Without an annotated column, the column of a camelCase field converts back to the field name. |
| `Lambda.ParamName` | src/main/java/io/github/mocanjie/base/myjpa/lambda/LambdaQueryWrapper.java:51-53 | Parameter names are "lwp" followed by digits. |
| `Lambda.ParamNamesDistinct` | src/main/java/io/github/mocanjie/base/myjpa/lambda/LambdaQueryWrapper.java:51-53 | Different counters give different names, so no parameter overwrites another. |
| `Lambda.ParamMapKeys` | src/main/java/io/github/mocanjie/base/myjpa/lambda/LambdaQueryWrapper.java:213-215 | The parameter map holds exactly the names put. |
| `Lambda.ParamMapValues` | src/main/java/io/github/mocanjie/base/myjpa/lambda/LambdaQueryWrapper.java:213-215 | With distinct names, each name put leads to its own value. |
| `Lambda.ParamMapLookup` | src/main/java/io/github/mocanjie/base/myjpa/lambda/LambdaQueryWrapper.java:213-215 | With distinct names, the key set is exactly the names put, each with its own value. |
| `Lambda.NumberedParamMap` | src/main/java/io/github/mocanjie/base/myjpa/lambda/LambdaQueryWrapper.java:213-215 | The map of n numbered parameters holds lwp0 .. lwp(n-1), each with its own value. |
| `Lambda.QueryHead` | src/main/java/io/github/mocanjie/base/myjpa/lambda/LambdaQueryWrapper.java:198-199 | The built query starts with "SELECT " and contains " FROM " followed by the table name. |
| `Lambda.QueryHasCondition` | src/main/java/io/github/mocanjie/base/myjpa/lambda/LambdaQueryWrapper.java:200-203 | Every condition occurs in the built query. |
| `Lambda.QueryHasColumn` | src/main/java/io/github/mocanjie/base/myjpa/lambda/LambdaQueryWrapper.java:197-198 | Every selected column occurs in the built query. |
| `Lambda.QueryHasOrderItem` | src/main/java/io/github/mocanjie/base/myjpa/lambda/LambdaQueryWrapper.java:204-207 | Every ORDER BY item occurs in the built query. |
| `Lambda.QueryCarriesEveryPart` | src/main/java/io/github/mocanjie/base/myjpa/lambda/LambdaQueryWrapper.java:191-211 | The built query starts with SELECT, names the table, and carries every condition, selected column and ORDER BY item. |
| `Lambda.QuerySql` | src/main/java/io/github/mocanjie/base/myjpa/lambda/LambdaQueryWrapper.java:191-211 | The query ends with the ORDER BY clause of its order items. With no conditions and no order it ends with the FROM of the table. |
| `Lambda.LambdaQueryWrapper.constructor` | src/main/java/io/github/mocanjie/base/myjpa/lambda/LambdaQueryWrapper.java:45-49 | A new wrapper has no conditions, parameters, columns or ORDER BY items, and its counter is 0. |
| `Lambda.LambdaQueryWrapper.NextParam` | src/main/java/io/github/mocanjie/base/myjpa/lambda/LambdaQueryWrapper.java:51-53 | Returns the name for the current counter and advances the counter by one. Nothing else changes. |
| `Lambda.LambdaQueryWrapper.Eq` | src/main/java/io/github/mocanjie/base/myjpa/lambda/LambdaQueryWrapper.java:63-68 | Appends exactly `col = :p` and one parameter p bound to the value, advancing the counter once. The invariant is kept: parameters are lwp0.. in order and each placeholder occurs in its condition. |
| `Lambda.LambdaQueryWrapper.Ne` | src/main/java/io/github/mocanjie/base/myjpa/lambda/LambdaQueryWrapper.java:70-75 | As eq, with `!=`. |
| `Lambda.LambdaQueryWrapper.Gt` | src/main/java/io/github/mocanjie/base/myjpa/lambda/LambdaQueryWrapper.java:77-82 | As eq, with `>`. |
| `Lambda.LambdaQueryWrapper.Ge` | src/main/java/io/github/mocanjie/base/myjpa/lambda/LambdaQueryWrapper.java:84-89 | As eq, with `>=`. |
| `Lambda.LambdaQueryWrapper.Lt` | src/main/java/io/github/mocanjie/base/myjpa/lambda/LambdaQueryWrapper.java:91-96 | As eq, with `<`. |
| `Lambda.LambdaQueryWrapper.Le` | src/main/java/io/github/mocanjie/base/myjpa/lambda/LambdaQueryWrapper.java:98-103 | As eq, with `<=`. |
| `Lambda.LambdaQueryWrapper.Like` | src/main/java/io/github/mocanjie/base/myjpa/lambda/LambdaQueryWrapper.java:105-110 | Appends `col LIKE :p` with p bound to `%val%`. |
| `Lambda.LambdaQueryWrapper.LikeLeft` | src/main/java/io/github/mocanjie/base/myjpa/lambda/LambdaQueryWrapper.java:112-117 | Appends `col LIKE :p` with p bound to `%val`. |
| `Lambda.LambdaQueryWrapper.LikeRight` | src/main/java/io/github/mocanjie/base/myjpa/lambda/LambdaQueryWrapper.java:119-124 | Appends `col LIKE :p` with p bound to `val%`. |
| `Lambda.LambdaQueryWrapper.In` | src/main/java/io/github/mocanjie/base/myjpa/lambda/LambdaQueryWrapper.java:126-131 | Appends `col IN (:p)` with the collection bound whole to p. |
| `Lambda.LambdaQueryWrapper.NotIn` | src/main/java/io/github/mocanjie/base/myjpa/lambda/LambdaQueryWrapper.java:133-138 | Appends `col NOT IN (:p)` with the collection bound whole to p. |
| `Lambda.LambdaQueryWrapper.Between` | src/main/java/io/github/mocanjie/base/myjpa/lambda/LambdaQueryWrapper.java:140-147 | Appends one condition with two consecutive parameters, advancing the counter twice. |
| `Lambda.LambdaQueryWrapper.IsNull` | src/main/java/io/github/mocanjie/base/myjpa/lambda/LambdaQueryWrapper.java:149-152 | Appends `col IS NULL` with no parameter. The counter is untouched. |
| `Lambda.LambdaQueryWrapper.IsNotNull` | src/main/java/io/github/mocanjie/base/myjpa/lambda/LambdaQueryWrapper.java:154-157 | Appends `col IS NOT NULL` with no parameter. The counter is untouched. |
| `Lambda.LambdaQueryWrapper.Columns` | src/main/java/io/github/mocanjie/base/myjpa/lambda/LambdaQueryWrapper.java:164-185 | One entry per getter, in argument order: the getter's column followed by the suffix. |
| `Lambda.LambdaQueryWrapper.AppendColumns` | src/main/java/io/github/mocanjie/base/myjpa/lambda/LambdaQueryWrapper.java:165-167 | The loop appends the getters' columns with the suffix, in argument order. |
| `Lambda.LambdaQueryWrapper.Select` | src/main/java/io/github/mocanjie/base/myjpa/lambda/LambdaQueryWrapper.java:164-169 | Appends the columns in argument order. Nothing else changes. |
| `Lambda.LambdaQueryWrapper.OrderByAsc` | src/main/java/io/github/mocanjie/base/myjpa/lambda/LambdaQueryWrapper.java:172-177 | Appends `col ASC` per getter, in order. Nothing else changes. |
| `Lambda.LambdaQueryWrapper.OrderByDesc` | src/main/java/io/github/mocanjie/base/myjpa/lambda/LambdaQueryWrapper.java:180-185 | Appends `col DESC` per getter, in order. Nothing else changes. |
| `Lambda.LambdaQueryWrapper.BuildSql` | src/main/java/io/github/mocanjie/base/myjpa/lambda/LambdaQueryWrapper.java:191-211 | Fails iff the registry has no table name for the entity class. Otherwise it is the SELECT with `*` or the columns, FROM the table, an optional WHERE of the conditions joined by AND, and an optional ORDER BY. |
| `Lambda.LambdaQueryWrapper.ParamsAreNumbered` | src/main/java/io/github/mocanjie/base/myjpa/lambda/LambdaQueryWrapper.java:213-215 | After any sequence of calls, the parameter map holds lwp0 .. lwp(n-1) for the n parameters made, each with its own value. |
| `Lambda.LambdaQueryWrapper.ParamsBoundInSql` | src/main/java/io/github/mocanjie/base/myjpa/lambda/LambdaQueryWrapper.java:191-215 | Every bound parameter's placeholder occurs in the built SQL. |
| `Metadata.FindField` | src/main/java/io/github/mocanjie/base/myjpa/metadata/TableInfo.java:29-31 | The result is the first field with the name, or none exactly when no field has it. |
| `CommonUtils.SnakeLength` | src/main/java/io/github/mocanjie/base/myjpa/utils/CommonUtils.java:14-24 | The output is as long as the input plus the number of upper-case letters. |
| `CommonUtils.SnakeHasNoUpper` | src/main/java/io/github/mocanjie/base/myjpa/utils/CommonUtils.java:16-20 | The converted text holds no upper-case letter. |
| `CommonUtils.CamelCaseToUnderscore` | src/main/java/io/github/mocanjie/base/myjpa/utils/CommonUtils.java:12-25 | The loop computes the conversion: text without a visible character is returned as it is; anything else has each upper-case c replaced by `_` and lower-case c. |
| `CommonUtils.ToUnderscore` | src/main/java/io/github/mocanjie/base/myjpa/utils/CommonUtils.java:12-25 | Text without visible characters is returned unchanged. Otherwise the result is one character longer per upper-case letter and holds no upper-case letter. |
| `CommonUtils.FromUnderscore` | src/main/java/io/github/mocanjie/base/myjpa/utils/CommonUtils.java:28-41 | The conversion fails, as charAt(i + 1) throws, exactly when the text has a visible character and an unpaired trailing '_'. |
| `CommonUtils.UnderscoreToCamelCase` | src/main/java/io/github/mocanjie/base/myjpa/utils/CommonUtils.java:28-41 | The loop, with its in-loop `i++`, computes the specified conversion or failure. |
| `CommonUtils.Camel` | src/main/java/io/github/mocanjie/base/myjpa/utils/CommonUtils.java:28-41 | The result is never longer than the input, non-empty input gives non-empty output, and text without '_' is unchanged. |
| `CommonUtils.SnakeOfCamel` | src/main/java/io/github/mocanjie/base/myjpa/utils/CommonUtils.java:28-41 | A lower-case snake name has every '_' paired, and converting it to camelCase and back gives it again. |
| `CommonUtils.UnderscoreRoundTrip` | src/main/java/io/github/mocanjie/base/myjpa/dao/impl/BaseDaoImpl.java:388-390 | For a lower-case snake name such as the tenant column, underscoreToCamelCase succeeds and camelCaseToUnderscore of its result is the name again. |
| `CommonUtils.CamelOfSnake` | src/main/java/io/github/mocanjie/base/myjpa/utils/CommonUtils.java:12-41 | Text without underscores converts to snake_case and back unchanged. |
| `CommonUtils.CamelRoundTrip` | src/main/java/io/github/mocanjie/base/myjpa/utils/CommonUtils.java:12-41 | For every camelCase name without underscores, including blank ones, the round trip through snake_case succeeds and gives the name back. |
| `SqlBuilder.DialectOf` | src/main/java/io/github/mocanjie/base/myjpa/builder/SqlBuilder.java:81-96 | Type 2 is Oracle, 3 is SQL Server and 5 is PostgreSQL, each as an iff. Every other code, 1 and 4 included, is MySQL. |
| `SqlBuilder.OrderByClause` | src/main/java/io/github/mocanjie/base/myjpa/builder/SqlBuilder.java:112-115 | An ORDER BY is written iff both the sort property and the direction have text. |
| `SqlBuilder.SkipSpaces` | src/main/java/io/github/mocanjie/base/myjpa/builder/SqlBuilder.java:107 | The regex's `\s*` stops at the first non-space character, having skipped only spaces. |
| `SqlBuilder.LeadingSelectEnd` | src/main/java/io/github/mocanjie/base/myjpa/builder/SqlBuilder.java:107 | A match of the leading SELECT pattern ends inside the text. |
| `SqlBuilder.SqlServerTop` | src/main/java/io/github/mocanjie/base/myjpa/builder/SqlBuilder.java:107 | Without a leading SELECT the query is kept. With one, that prefix becomes `select top (start+size) ` and the rest of the query is kept. |
| `SqlBuilder.PagerSqlLayout` | src/main/java/io/github/mocanjie/base/myjpa/builder/SqlBuilder.java:81-179 | Every dialect's text starts with its wrapper around the whole query (for SQL Server, the query with SELECT TOP). It ends with the ORDER BY, when there is one, followed by the dialect's paging clause. Every dialect but SQL Server keeps the original query text whole. |
| `SqlBuilder.BuildPagerSql` | src/main/java/io/github/mocanjie/base/myjpa/builder/SqlBuilder.java:81-96 | The paged query starts with its dialect's opening text and ends with its dialect's paging clause. |
| `SqlBuilder.IsBigChr` | src/main/java/io/github/mocanjie/base/myjpa/builder/SqlBuilder.java:64-67 | A character is big iff it lies between 'A' and 'Z'. |
| `SqlBuilder.CnvSmallChr` | src/main/java/io/github/mocanjie/base/myjpa/builder/SqlBuilder.java:69-79 | The loop over the char array computes the ASCII lower-casing. |
| `SqlBuilder.CnvSmallChrExact` | src/main/java/io/github/mocanjie/base/myjpa/builder/SqlBuilder.java:64-79 | The length is preserved. Exactly the letters 'A'..'Z' change, each to its lower-case letter. |
| `SqlParser.InsertFieldsAreFiltered` | src/main/java/io/github/mocanjie/base/myjpa/parser/SqlParser.java:31-46 | Exactly the declared fields the filter accepts are kept: serialized, and with ignoreNull, readable, non-null, not "null" and not blank. |
| `SqlParser.InsertColumns` | src/main/java/io/github/mocanjie/base/myjpa/parser/SqlParser.java:47-55 | One column per kept field. |
| `SqlParser.InsertValues` | src/main/java/io/github/mocanjie/base/myjpa/parser/SqlParser.java:56 | One value per kept field, in order, each `:` and the trimmed field name. |
| `SqlParser.GetInsertSql` | src/main/java/io/github/mocanjie/base/myjpa/parser/SqlParser.java:29-58 | The stream with its side-effecting map computes the specified INSERT. |
| `SqlParser.InsertSqlShape` | src/main/java/io/github/mocanjie/base/myjpa/parser/SqlParser.java:57 | The INSERT has ") VALUES (" right after the column list and ends with ')'. |
| `SqlParser.InsertSql` | src/main/java/io/github/mocanjie/base/myjpa/parser/SqlParser.java:29-58 | The INSERT starts with `INSERT INTO` the table name and an opening parenthesis, and ends with a closing parenthesis. |
| `SqlParser.InsertSqlTakesTenant` | src/main/java/io/github/mocanjie/base/myjpa/parser/SqlParser.java:29-58 | Every INSERT this class builds that does not yet name the tenant column is rewritten by appendTenantToInsertSql. Afterwards it names the column. |
| `SqlParser.ForcedFieldsAreUpdated` | src/main/java/io/github/mocanjie/base/myjpa/parser/SqlParser.java:63-78 | A forced field is updated even when null or not serialized. Only declared fields are updated. |
| `SqlParser.UpdateSql` | src/main/java/io/github/mocanjie/base/myjpa/parser/SqlParser.java:61-96 | The UPDATE starts with `UPDATE` the table name and `SET` (its ending is UpdateSqlEndsWithKey). |
| `SqlParser.SelectByIdSql` | src/main/java/io/github/mocanjie/base/myjpa/parser/SqlParser.java:100-102 | The query starts with `SELECT * FROM` the table name and ends with the primary-key condition. |
| `SqlParser.UpdateSqlEndsWithKey` | src/main/java/io/github/mocanjie/base/myjpa/parser/SqlParser.java:94-95 | The UPDATE ends with `WHERE pkCol=:pkField`. |
| `SqlParser.SelectByFieldSql` | src/main/java/io/github/mocanjie/base/myjpa/parser/SqlParser.java:104-112 | Fails (BusinessException) exactly when the entity has no field of that name. |
| `SqlParser.SelectByKeyFieldIsSelectById` | src/main/java/io/github/mocanjie/base/myjpa/parser/SqlParser.java:100-112 | Selecting by the primary key field is selecting by id, unless the key field is also the delete field. |
| `SqlParser.ColumnsAgree` | src/main/java/io/github/mocanjie/base/myjpa/parser/SqlParser.java:47-111 | When no precedence rule separates them, INSERT, UPDATE and SELECT-by-field agree on a field's column. |
| `SqlParser.DelByIdIsLogicalIff` | src/main/java/io/github/mocanjie/base/myjpa/parser/SqlParser.java:119-134 | A delete by id is a logical UPDATE iff the class has a valid descriptor with a column. Otherwise it is a physical DELETE. |
| `SqlParser.DelByIdsIsLogicalIff` | src/main/java/io/github/mocanjie/base/myjpa/parser/SqlParser.java:141-157 | The same rule holds for the delete by ids. |
| `SqlParser.DelByIdSql` | src/main/java/io/github/mocanjie/base/myjpa/parser/SqlParser.java:119-134 | The statement starts with `UPDATE` when the table has a valid delete column and with `DELETE FROM` otherwise, followed by the table name, and ends with the single-id placeholder. |
| `SqlParser.DelByIdsSql` | src/main/java/io/github/mocanjie/base/myjpa/parser/SqlParser.java:141-157 | The same choice of keyword, followed by the table name, and the statement ends with the IN list of the primary-key parameter. |
| `RowMapping.FindProperty` | src/main/java/io/github/mocanjie/base/myjpa/rowmapper/MyBeanPropertyRowMapper.java:185 | The descriptor found has the name asked for. None is found exactly when no property has it. |
| `RowMapping.KeyName` | src/main/java/io/github/mocanjie/base/myjpa/rowmapper/MyBeanPropertyRowMapper.java:176-183 | The key field is registered under the primary-key column name. Any other field is registered under its own name unless a non-blank annotation value, trimmed, replaces it. |
| `RowMapping.UnderscoreName` | src/main/java/io/github/mocanjie/base/myjpa/rowmapper/MyBeanPropertyRowMapper.java:240-256 | The loop computes the snake_case conversion; an empty name gives "". |
| `RowMapping.OneKeyIffNoUpper` | src/main/java/io/github/mocanjie/base/myjpa/rowmapper/MyBeanPropertyRowMapper.java:187-191 | The lower-case key and the underscore key coincide iff the name has no upper-case letter. |
| `RowMapping.PutKeys` | src/main/java/io/github/mocanjie/base/myjpa/rowmapper/MyBeanPropertyRowMapper.java:186-192 | Registering a name adds exactly its lower-case and underscore keys, both leading to its descriptor. Other keys are kept. |
| `RowMapping.Entries` | src/main/java/io/github/mocanjie/base/myjpa/rowmapper/MyBeanPropertyRowMapper.java:169-207 | A class with TableInfo registers one entry per TableInfo field. |
| `RowMapping.Writable` | src/main/java/io/github/mocanjie/base/myjpa/rowmapper/MyBeanPropertyRowMapper.java:195-205 | The fallback keeps exactly the properties with a write method. |
| `RowMapping.KeyTableLastWins` | src/main/java/io/github/mocanjie/base/myjpa/rowmapper/MyBeanPropertyRowMapper.java:169-207 | A key is in the table iff some entry registers it. It leads to the descriptor of the last entry that does. |
| `RowMapping.PropertyNamesAre` | src/main/java/io/github/mocanjie/base/myjpa/rowmapper/MyBeanPropertyRowMapper.java:169-207 | The recorded property names are the TableInfo field names, or the names of the writable properties. |
| `RowMapping.EntriesRecorded` | src/main/java/io/github/mocanjie/base/myjpa/rowmapper/MyBeanPropertyRowMapper.java:169-207 | Every descriptor in the key table is a recorded property. |
| `RowMapping.MapColumns` | src/main/java/io/github/mocanjie/base/myjpa/rowmapper/MyBeanPropertyRowMapper.java:276-306 | Every write goes to a column whose key leads to a writable property of that name. |
| `RowMapping.ColumnKey` | src/main/java/io/github/mocanjie/base/myjpa/rowmapper/MyBeanPropertyRowMapper.java:278 | The lookup key of a column is no longer than the column and holds no space and no upper-case letter. |
| `RowMapping.MapRowSpec` | src/main/java/io/github/mocanjie/base/myjpa/rowmapper/MyBeanPropertyRowMapper.java:265-327 | Without a mapped class the call fails. A success is the column mapping of the row, and under the strict check the properties it writes are exactly the recorded ones. |
| `RowMapping.MatchedColumnsAreWritten` | src/main/java/io/github/mocanjie/base/myjpa/rowmapper/MyBeanPropertyRowMapper.java:276-306 | Every column whose key leads to a descriptor is written to that property at its index. |
| `RowMapping.StrictCheckIff` | src/main/java/io/github/mocanjie/base/myjpa/rowmapper/MyBeanPropertyRowMapper.java:321-324 | The populated properties are always recorded ones. The strict check fails iff some recorded property was not populated. |
| `RowMapping.MyBeanPropertyRowMapper.constructor` | src/main/java/io/github/mocanjie/base/myjpa/rowmapper/MyBeanPropertyRowMapper.java:61-62 | The bean-style constructor leaves no class, no key table and no strict check. |
| `RowMapping.MyBeanPropertyRowMapper.ForClass` | src/main/java/io/github/mocanjie/base/myjpa/rowmapper/MyBeanPropertyRowMapper.java:64-82 | The class is set together with its key table and property set. |
| `RowMapping.MyBeanPropertyRowMapper.Initialize` | src/main/java/io/github/mocanjie/base/myjpa/rowmapper/MyBeanPropertyRowMapper.java:169-207 | The loops register every entry in order, giving the specified key table and property names. |
| `RowMapping.MyBeanPropertyRowMapper.SetMappedClass` | src/main/java/io/github/mocanjie/base/myjpa/rowmapper/MyBeanPropertyRowMapper.java:88-98 | The first call initialises. A later call with another class fails and changes nothing. One with the same class does nothing. |
| `RowMapping.MyBeanPropertyRowMapper.SetCheckFullyPopulated` | src/main/java/io/github/mocanjie/base/myjpa/rowmapper/MyBeanPropertyRowMapper.java:113-115 | Only the strict-check flag changes. |
| `RowMapping.MyBeanPropertyRowMapper.SuppressProperty` | src/main/java/io/github/mocanjie/base/myjpa/rowmapper/MyBeanPropertyRowMapper.java:214-219 | Both the lower-case and the underscore key of the property are dropped, when a key table exists. |
| `RowMapping.MyBeanPropertyRowMapper.MapRow` | src/main/java/io/github/mocanjie/base/myjpa/rowmapper/MyBeanPropertyRowMapper.java:265-327 | The column loop and the fully-populated check compute the specified writes or failure. |
| `RowMapping.MapColumnsFailureStays` | src/main/java/io/github/mocanjie/base/myjpa/rowmapper/MyBeanPropertyRowMapper.java:287-306 | A failure on some column is the failure of the whole row. |
| `RowMapping.ColumnFindsField` | src/main/java/io/github/mocanjie/base/myjpa/rowmapper/MyBeanPropertyRowMapper.java:276-279 | A column finds a field registered under a key name whose lower-case or underscore form equals the column's label with spaces deleted and lower-cased, unless a later field takes the key. |
| `SchemaValidator.TableColumns` | src/main/java/io/github/mocanjie/base/myjpa/validation/DatabaseSchemaValidator.java:154-170 | The column names come back lower-cased. |
| `SchemaValidator.Appended` | src/main/java/io/github/mocanjie/base/myjpa/validation/DatabaseSchemaValidator.java:348-350 | The message goes at the end of that table's list, which is created on first use. Every other table's list is untouched. |
| `SchemaValidator.SumSizesRemove` | src/main/java/io/github/mocanjie/base/myjpa/validation/DatabaseSchemaValidator.java:368-370 | The stream sum does not depend on which table is counted first. |
| `SchemaValidator.SumSizesAppended` | src/main/java/io/github/mocanjie/base/myjpa/validation/DatabaseSchemaValidator.java:348-378 | Each add raises the count by exactly one. |
| `SchemaValidator.NonEmptyIffCounted` | src/main/java/io/github/mocanjie/base/myjpa/validation/DatabaseSchemaValidator.java:360-378 | With no empty lists, a map has a table iff it has a message. |
| `SchemaValidator.ValidationResult.constructor` | src/main/java/io/github/mocanjie/base/myjpa/validation/DatabaseSchemaValidator.java:344-346 | The three maps start empty. |
| `SchemaValidator.ValidationResult.AddError` | src/main/java/io/github/mocanjie/base/myjpa/validation/DatabaseSchemaValidator.java:348-350 | The error map gains the message at the end of the table's list. The other maps are untouched. |
| `SchemaValidator.ValidationResult.AddWarning` | src/main/java/io/github/mocanjie/base/myjpa/validation/DatabaseSchemaValidator.java:352-354 | The same for the warning map. |
| `SchemaValidator.ValidationResult.AddSuccess` | src/main/java/io/github/mocanjie/base/myjpa/validation/DatabaseSchemaValidator.java:356-358 | The same for the success map. |
| `SchemaValidator.ValidationResult.HasIffCounted` | src/main/java/io/github/mocanjie/base/myjpa/validation/DatabaseSchemaValidator.java:360-366 | hasErrors holds iff an error was added, and hasWarnings likewise. |
| `SchemaValidator.ValidationResult.HasErrors` | src/main/java/io/github/mocanjie/base/myjpa/validation/DatabaseSchemaValidator.java:360-362 | Errors are reported iff some table holds an error. |
| `SchemaValidator.ValidationResult.HasWarnings` | src/main/java/io/github/mocanjie/base/myjpa/validation/DatabaseSchemaValidator.java:364-366 | Warnings are reported iff some table holds a warning. |
| `SchemaValidator.ValidationResult.GetTotalTables` | src/main/java/io/github/mocanjie/base/myjpa/validation/DatabaseSchemaValidator.java:380-386 | The total is at least the number of tables in each of the error, warning and success maps, and at most their sum. |
| `SchemaValidator.ValidationResult.Count` | src/main/java/io/github/mocanjie/base/myjpa/validation/DatabaseSchemaValidator.java:368-378 | The stream sum is the number of messages in the map. |
| `SchemaValidator.ValidationResult.GetErrorCount` | src/main/java/io/github/mocanjie/base/myjpa/validation/DatabaseSchemaValidator.java:368-370 | The number of errors added. |
| `SchemaValidator.ValidationResult.GetWarningCount` | src/main/java/io/github/mocanjie/base/myjpa/validation/DatabaseSchemaValidator.java:372-374 | The number of warnings added. |
| `SchemaValidator.ValidationResult.GetSuccessCount` | src/main/java/io/github/mocanjie/base/myjpa/validation/DatabaseSchemaValidator.java:376-378 | The number of successes added. |
| `SchemaValidator.VerdictCases` | src/main/java/io/github/mocanjie/base/myjpa/validation/DatabaseSchemaValidator.java:86-125 | A table without a descriptor gets exactly one warning. A missing table gets exactly one error. A missing key column is an error; a missing delete column is a warning and a mark; a present one is a success. |
| `SchemaValidator.TableVerdict` | src/main/java/io/github/mocanjie/base/myjpa/validation/DatabaseSchemaValidator.java:86-125 | A table gets at most one message of each kind. Marking the delete field invalid needs a configured descriptor and an existing table, with exactly one warning. A table with no message at all has a descriptor without a delete column. |
| `SchemaValidator.ValidateTable` | src/main/java/io/github/mocanjie/base/myjpa/validation/DatabaseSchemaValidator.java:86-125 | The table's messages are appended to the right lists. The registry is marked exactly when the verdict says so. |
| `SchemaValidator.VerdictIgnoresMarks` | src/main/java/io/github/mocanjie/base/myjpa/validation/DatabaseSchemaValidator.java:101-117 | Marking a table changes no table's verdict, so the validation order does not matter. |
| `SchemaValidator.MarkKeepsInvalid` | src/main/java/io/github/mocanjie/base/myjpa/validation/DatabaseSchemaValidator.java:113 | A descriptor once marked invalid stays invalid when another table is marked. |
| `SchemaValidator.ValidateAllTables` | src/main/java/io/github/mocanjie/base/myjpa/validation/DatabaseSchemaValidator.java:62-81 | Every registered table is validated once. The result holds exactly each table's verdict messages, and every table whose verdict marks it ends invalid. The set of registered tables is unchanged. |
| `SchemaValidator.MarkedIsInvalid` | src/main/java/io/github/mocanjie/base/myjpa/validation/DatabaseSchemaValidator.java:111-114 | A table whose verdict marks it has a descriptor, which marking makes invalid. |
| `SchemaValidator.MarkedTableGetsNoDeletePredicate` | src/main/java/io/github/mocanjie/base/myjpa/parser/JSqlDynamicSqlParser.java:706-707 | Once validation has marked a table, no pass injects a delete predicate for it, under any case of its name. |
| `Reflection.Persistent` | src/main/java/io/github/mocanjie/base/myjpa/utils/MyReflectionUtils.java:17-21 | Exactly the fields neither static nor transient are kept, and distinct names stay distinct. |
| `Reflection.NotRedeclaredKeeps` | src/main/java/io/github/mocanjie/base/myjpa/utils/MyReflectionUtils.java:31-37 | Exactly the inherited fields whose names are not taken are kept, and distinct names stay distinct. |
| `Reflection.FieldListIsPersistentAndDistinct` | src/main/java/io/github/mocanjie/base/myjpa/utils/MyReflectionUtils.java:12-29 | No listed field is static or transient, and no two share a name. |
| `Reflection.FieldListNames` | src/main/java/io/github/mocanjie/base/myjpa/utils/MyReflectionUtils.java:22-23 | The listed names are the class's own persistent names together with those its ancestors list. |
| `Reflection.ExcludeOverrideSuperField` | src/main/java/io/github/mocanjie/base/myjpa/utils/MyReflectionUtils.java:31-37 | Appends, in order, every super field whose name the list lacks, and returns that same list. |
| `Reflection.FieldListOf` | src/main/java/io/github/mocanjie/base/myjpa/utils/MyReflectionUtils.java:12-29 | The recursion with the in-place append computes the specified list: empty for null and for classes without a superclass. |
| `Reflection.GetFieldList` | src/main/java/io/github/mocanjie/base/myjpa/utils/MyReflectionUtils.java:12-29 | No class, or a class without a superclass, gives an empty list. Otherwise the list holds every persistent declared field, and no static or transient field. |
| `AnnotationProcessor.Rule1Errors` | src/main/java/io/github/mocanjie/base/myjpa/processor/MyTableAnnotationProcessor.java:60-69 | At most one error per annotated element. |
| `AnnotationProcessor.Rule1ErrorsExact` | src/main/java/io/github/mocanjie/base/myjpa/processor/MyTableAnnotationProcessor.java:60-69 | Rule-1 reports exactly the annotated types that are not MyTableEntity, as errors with the Rule-1 message. |
| `AnnotationProcessor.Rule2Errors` | src/main/java/io/github/mocanjie/base/myjpa/processor/MyTableAnnotationProcessor.java:72-86 | At most one error per root element. |
| `AnnotationProcessor.Rule2ErrorsExact` | src/main/java/io/github/mocanjie/base/myjpa/processor/MyTableAnnotationProcessor.java:72-86 | Rule-2 reports exactly the concrete MyTableEntity classes without @MyTable, as errors with the Rule-2 message. |
| `AnnotationProcessor.NoErrorsIffBound` | src/main/java/io/github/mocanjie/base/myjpa/processor/MyTableAnnotationProcessor.java:50-89 | A round prints nothing iff it is skipped or both bindings hold for every element. |
| `AnnotationProcessor.Rule2Exemptions` | src/main/java/io/github/mocanjie/base/myjpa/processor/MyTableAnnotationProcessor.java:74-76 | Interfaces, abstract classes and non-type elements never get a Rule-2 error. |
| `AnnotationProcessor.MyTableAnnotationProcessor.constructor` | src/main/java/io/github/mocanjie/base/myjpa/processor/MyTableAnnotationProcessor.java:32 | No entity type is resolved and nothing is printed. |
| `AnnotationProcessor.MyTableAnnotationProcessor.Init` | src/main/java/io/github/mocanjie/base/myjpa/processor/MyTableAnnotationProcessor.java:35-42 | The entity type is resolved when MyTableEntity is on the class path. Nothing is printed. |
| `AnnotationProcessor.MyTableAnnotationProcessor.Process` | src/main/java/io/github/mocanjie/base/myjpa/processor/MyTableAnnotationProcessor.java:50-89 | The processor never claims the annotations. It prints exactly the round's diagnostics: none when skipped, else Rule-1's then Rule-2's. |
| `AnnotationProcessor.MyTableAnnotationProcessor.CheckRule1` | src/main/java/io/github/mocanjie/base/myjpa/processor/MyTableAnnotationProcessor.java:60-69 | The loop prints exactly the Rule-1 errors, in order. |
| `AnnotationProcessor.MyTableAnnotationProcessor.CheckRule2` | src/main/java/io/github/mocanjie/base/myjpa/processor/MyTableAnnotationProcessor.java:72-86 | The loop prints exactly the Rule-2 errors, in order. |

## Left out

- Parsing SQL text into a statement tree, and printing it back, are JSqlParser's job. They are parameters (`SqlLibrary`), so parse failures are "does not parse as a SELECT". An exception thrown while processing a parsed tree is not modelled.
- The ON text guard of the delete-only and tenant-only passes compares against `Expression.toString()`. That printer is a parameter (`show`), so the guard is as precise as the printer given.
- The unified pass's LEFT/RIGHT ON merge, and the delete-only ON path for an unaliased table, add their predicates again on a second pass. The model follows the code. Idempotence is proved for WHERE and for selects owing nothing to ON, not in general.
- The deprecated `addTableCondition` (JSqlDynamicSqlParser.java:808-822) has no caller and is not modelled.
- The TableCacheManager shown has no tenant-table set, valid flag, primary-key cache or `getAllTableNames`. They are inferred from their call sites: a `valid` flag per descriptor, a tenant-table set, a primary-key column map and the lower-cased table keys. `clearCache` also clears them.
- `initCache`, `getCacheStats`, classpath scanning and `TableInfoBuilder` are not modelled. `ScanPackage` takes the scanned classes as a list.
- JDBC execution and database metadata probes are not modelled. The schema check reads an abstract `Schema`, and the validator's catch-all for database errors is left out.
- Bean conversion in `mapRow` (type conversion, TypeMismatchException, primitivesDefaultedForNullValue, constructMappedInstance) is not modelled. The model yields the property writes a row makes.
- Thread confinement of `TenantContext` is modelled as one object per thread. Concurrency and `volatile` settings are left out.
- `WithoutTenant` takes the body as a function of the context, so side effects inside the body are not modelled.
- Character classes, case conversion and trimming are ASCII only.
- Java `int` overflow is not modelled: the page bounds `start+size` in SqlBuilder, the `paramIndex` counter of LambdaQueryWrapper, and the validation counts are unbounded.
- `BaseDao.BatchCount`: a negative batch size is only stated to give no calls, and a zero batch size is stated only through `BaseDao.BatchInsertChunks`'s empty chunks.
- `camelCaseToUnderscore(null)` returns null; the model covers non-null text only. The copy of `camelCaseToUnderscore` in SqlBuilder (SqlBuilder.java:181-194) is the same conversion and is not modelled twice.
- `BaseDao.SetTenantField`: for a field of a type other than Long, Integer or String, the model stores the id as it is. Java's reflective set would fail for an incompatible type, and that failure is logged.
- `Lambda.LambdaQueryWrapper.Like`: a null value is printed as "null" by string concatenation, and the model binds that text. No other null handling is modelled.
- The order of HashMap and HashSet iteration is not modelled. `ValidateAllTables` is proved for every order, since no verdict depends on another table's mark.
- `list()`, `one()`, `count()`, `page()` and `exists()` of LambdaQueryWrapper delegate to the DAO and are not modelled.
- `Reflection.ExcludeOverrideSuperField` requires the list's names to be distinct. Java forbids two fields of one name in one class, and `Collectors.toMap` would throw otherwise.
- `AnnotationProcessor.MyTableAnnotationProcessor.Init` is called once by the compiler; repeated calls are modelled but not promised.
- Logging is left out everywhere.
- JSqlParser's tree is mutated in place: `setWhere`, `setOnExpressions` and the sub-select rewrites change the parsed objects. `ConditionEngine.RewritePlain`, `MergeWhere`, `MergeOn`, `ApplyOn`, `RewriteSelect`, `RewriteFrom`, `RewriteJoinItems`, `RewriteItems` and `Search` instead return new trees, and `ConditionProcessing` rebuilds values. A sub-tree shared by two parents is rewritten once in Java and once per parent in the model, so aliasing between shared sub-trees is not captured.
- `BaseDao.BatchInsertRows`: of the exceptions the catch-all turns into BusinessException, only underscoreToCamelCase's is modelled; reflection, id generation and JDBC failures are not. The null list is the empty sequence. The tenant field's kind is looked up once on the first entity's class, as in the code; entities of another class in the same list are filled with that kind. The reflective lookup `findFieldInHierarchy` is the parameter `tenantField`.
- `BaseDao.DelByIds`: the catch-all that turns any exception into BusinessException("del error!") is not modelled; the batch execution itself is JDBC and left out.
