# Empire-db query rowsets and case expressions in Dafny

This project models two parts of Apache Empire-db's data-access layer.

**`DBQuery`** wraps a select command as a pseudo-table (a rowset):
- Its columns are the update columns of the select list.
- With declared key columns it can read a record by key and write a modified record back.
- The write-back (`updateRecord`) runs in four steps:
  1. It groups the record's modified fields by the real table that owns each column.
  2. For each table it adds WHERE restrictions in a fixed order: first those derived from the command's joins, then the command's own column comparisons on that table, then one key equality per key column of that table.
  3. It handles the table's optimistic-locking timestamp column.
  4. It reads the affected-row count as success, failure or a soft rollback.

**`DBCaseExpr`** infers the metadata of a SQL `CASE` expression from its condition/value pairs and its else value: database, source column, data type, enum type and aggregate flag. Each attribute follows a first-wins rule.

Modules:
- `Outcomes`: Option, Result and Outcome.
- `DBSchema`: columns, values, predicates, joins, statements, the schema and the database oracle.
- `Records`: a minimal DBRecord class.
- `QuerySpec`: the record operations of DBQuery as functions.
- `Query`: class `DBQuery` and the command it wraps. Its methods are proved to compute the `QuerySpec` functions.
- `QueryProps`: what those functions guarantee.
- `CaseSpec`: the inference as functions.
- `CaseExpr`: the class with its `Init` loop, proved against `CaseSpec`.
- `CaseProps`: first-wins, monotonicity and the reference characterisation.

Modelling choices:
- Java exceptions are `Error` values.
  - The exceptions the code throws by name become constructors of their own.
  - An unguarded null dereference becomes `NullReference`.
  - An array index out of bounds becomes `IndexOutOfRange`.
- The database is a value `Database`:
  - whether prepared statements are enabled;
  - the update timestamp;
  - the affected-row count of each statement;
  - the row a select returns, if any.
- The command map's iteration order is a parameter `order`: a duplicate-free enumeration of the tables of the rowset's columns.
- Getters of `DBCaseExpr` (`GetDatabase`, `GetDataType`, `GetEnumType`, `GetSourceColumn`, `IsAggregate`) read the fields. `IsNull`/`IsNotNull` are predicates of `CaseSpec`. `DBQuery.IsUpdateable` is the predicate `keyColumns != null`.
- Two behaviours of the code are easy to miss. The second depends on how `DBCommand.where` treats a repeated column:
  - `isUpdateable` tests only that the key columns are non-null, not that they are non-empty (DBQuery.java:196-199).
  - `readRecord` adds its key predicates to the wrapped command itself, not to a copy. `DBCommand` is not part of this model, and the model reads its `where` as appending. Under that reading a second read also carries the first read's key predicates (`QueryProps.ReadAccumulates`). If `where` replaces an existing restriction on the same column, as a constraint setter would, the command keeps only the latest read's key predicates. Either way the first read's restrictions are left on the wrapped command.

## Model

| member | source | states |
|---|---|---|
| Query.DBQuery.constructor | empire-db/src/main/java/org/apache/empire/db/DBQuery.java:76-92 | the rowset's columns are the update columns of the select list, one per select expression, in order; key columns and alias as given (also the single-key and keyless constructors at 114-150, with the key array given as an optional sequence) |
| Query.DBQuery.Generated | empire-db/src/main/java/org/apache/empire/db/DBQuery.java:101-104 | the constructor without alias increments the query counter and uses "q" followed by the new count |
| Query.AliasCounter.NextAlias | empire-db/src/main/java/org/apache/empire/db/DBQuery.java:61-61 | the counter goes up by one and the alias is "q" + the new count |
| QueryProps.AliasNamesDistinct | empire-db/src/main/java/org/apache/empire/db/DBQuery.java:101-104 | different counter values give different aliases (via decimal parsing of the rendered number) |
| Query.DBQuery.FindQueryColumn | empire-db/src/main/java/org/apache/empire/db/DBQuery.java:218-228 | the first query column whose expression equals the argument, or none when no column matches |
| Query.DBQuery.FindQueryColumnByName | empire-db/src/main/java/org/apache/empire/db/DBQuery.java:235-245 | the first query column whose name matches under the given name comparison, or none when no name matches |
| Query.DBQuery.GetRecordKey | empire-db/src/main/java/org/apache/empire/db/DBQuery.java:262-268 | succeeds exactly for a record bound to this query, returning its row-set data; otherwise InvalidArgument |
| Query.DBQuery.AddSql | empire-db/src/main/java/org/apache/empire/db/DBQuery.java:277-287 | appends "(" select ")" and, when the alias flag is set in the context and there is an alias, a space and the alias |
| Query.DBQuery.CreateRecord | empire-db/src/main/java/org/apache/empire/db/DBQuery.java:326-329 | always NotImplemented |
| Query.DBQuery.DeleteRecord | empire-db/src/main/java/org/apache/empire/db/DBQuery.java:579-582 | always NotImplemented |
| Query.DBQuery.InitRecord | empire-db/src/main/java/org/apache/empire/db/DBQuery.java:298-316 | the record's fields and the outcome are those of `InitSpec`: all fields cleared, then key values placed |
| QueryProps.InitPlacement | empire-db/src/main/java/org/apache/empire/db/DBQuery.java:302-313 | with distinct key columns: fails (index out of range) exactly when a key column among the rowset's columns has no key value; whenever placement passes, each key column among the rowset's columns has a key value, that value lands in the column's (first) field, and every other field stays NO_VALUE |
| QueryProps.InitGuards | empire-db/src/main/java/org/apache/empire/db/DBQuery.java:302-309 | without key values every field is NO_VALUE; key values on a keyless query dereference null |
| Query.DBQuery.ReadRecord | empire-db/src/main/java/org/apache/empire/db/DBQuery.java:339-365 | the wrapped command's WHERE list, the record and the outcome are those of `ReadSpec`; its SELECT list and joins are unchanged |
| QueryProps.ReadGuards | empire-db/src/main/java/org/apache/empire/db/DBQuery.java:341-345 | InvalidArgument without connection or record, InvalidKey without key or with a key of the wrong length; a failed check changes neither the WHERE list nor the record |
| QueryProps.ReadAddsKeyPredicates | empire-db/src/main/java/org/apache/empire/db/DBQuery.java:346-364 | past the checks the WHERE list grows by exactly one predicate keyColumns[i] = key[i] per key column, also when no row is found; success iff the select returns a row, and then the record holds that row, is unmodified and stores the key; RecordNotFound leaves the record unchanged |
| QueryProps.KeyPredicatesAt | empire-db/src/main/java/org/apache/empire/db/DBQuery.java:348-353 | the i-th predicate added restricts the i-th key column to the i-th key value, as a parameter in prepared mode |
| QueryProps.ReadAccumulates | empire-db/src/main/java/org/apache/empire/db/DBQuery.java:347-353 | under the model's appending reading of `DBCommand.where`, a second read on the same query selects with the key predicates of both reads |
| Query.DBQuery.CollectUpdates | empire-db/src/main/java/org/apache/empire/db/DBQuery.java:394-421 | the per-table SET lists are those of `CollectSets` |
| QueryProps.CollectSetsGroups | empire-db/src/main/java/org/apache/empire/db/DBQuery.java:394-421 | fails exactly when a modified field does not validate, with InvalidValue of the first such column; otherwise one entry per table owning a non-null column, holding that table's modified fields in column order |
| QueryProps.ColumnAssignmentsMembers | empire-db/src/main/java/org/apache/empire/db/DBQuery.java:410-420 | an assignment is in a table's list exactly when it sets a modified field of a column of that table to the field's value |
| QueryProps.ReadOnlyColumnsWritten | empire-db/src/main/java/org/apache/empire/db/DBQuery.java:412-419 | a modified read-only column is still written |
| Query.DBQuery.AddJoinRestriction | empire-db/src/main/java/org/apache/empire/db/DBQuery.java:548-570 | adds updCol = the value chosen by `JoinValue` and returns true, or adds nothing and returns false when there is no value |
| QueryProps.JoinValueSource | empire-db/src/main/java/org/apache/empire/db/DBQuery.java:550-569 | in order of priority: when the counterpart is a declared key column and the record has row-set data, the stored key at the counterpart's key position (IndexOutOfRange when the stored tuple is shorter); otherwise the field of updCol's first occurrence among the rowset's columns, or else of the counterpart's: its value when unmodified, no value when modified; no value when neither is a rowset column |
| Query.DBQuery.JoinRestrictionsFor | empire-db/src/main/java/org/apache/empire/db/DBQuery.java:437-451 | the join restrictions are those of `JoinRestrictions`; what they contain is stated by `JoinRestrictionsMeaning` and the lemmas after it |
| QueryProps.JoinRestrictionsErrors | empire-db/src/main/java/org/apache/empire/db/DBQuery.java:437-451 | join handling throws only a null dereference, an index out of range or ItemNotFound |
| QueryProps.JoinRestrictionsMeaning | empire-db/src/main/java/org/apache/empire/db/DBQuery.java:436-451 | the join restrictions stop at the first side that throws, with its exception; otherwise they are exactly one updCol = value per restricting side (an update column of this table that is one of its key columns), in join order |
| QueryProps.FirstSideErrorAt | empire-db/src/main/java/org/apache/empire/db/DBQuery.java:436-451 | no side throws iff no exception is raised; an exception raised is that of the first side that throws |
| QueryProps.SideItemNotFound | empire-db/src/main/java/org/apache/empire/db/DBQuery.java:445-450 | a side throws ItemNotFound for column c exactly when c is its restricting key column and `JoinValue` finds no value |
| QueryProps.SidePredicatesMembers | empire-db/src/main/java/org/apache/empire/db/DBQuery.java:445-450 | a predicate is added exactly when it is c = v for a restricting side on c whose `JoinValue` is v |
| QueryProps.JoinRestrictionsItemNotFound | empire-db/src/main/java/org/apache/empire/db/DBQuery.java:445-450 | join handling fails with ItemNotFound(c) exactly when some side, after sides that all passed, restricts c and finds no value |
| QueryProps.TimestampPartMeaning | empire-db/src/main/java/org/apache/empire/db/DBQuery.java:489-513 | no timestamp column: nothing added; a timestamp column that is not a rowset column: SET ts = SYSDATE only; otherwise SET ts = the new timestamp, WHERE ts = the old value unless that is empty, and the field index is kept for the write-back |
| QueryProps.TableStatementMeaning | empire-db/src/main/java/org/apache/empire/db/DBQuery.java:436-513 | a table's statement is built iff join restrictions, carried conditions and key restrictions all succeed, errors in that order; it sets the table's SET list and then the timestamp, and its WHERE list is the join restrictions, the carried conditions, the key predicates and the timestamp condition, in that order |
| Query.DBQuery.CarryWhere | empire-db/src/main/java/org/apache/empire/db/DBQuery.java:453-476 | the carried predicates are those of `CarriedWhere` |
| QueryProps.CarriedWhereMeaning | empire-db/src/main/java/org/apache/empire/db/DBQuery.java:453-476 | succeeds exactly when every WHERE predicate is a column comparison, and then keeps exactly the comparisons on the table's columns |
| QueryProps.CarriedWhereErrors | empire-db/src/main/java/org/apache/empire/db/DBQuery.java:472-475 | a failure is NotSupported |
| Query.DBQuery.KeyRestrictionsFor | empire-db/src/main/java/org/apache/empire/db/DBQuery.java:478-487 | the key restrictions are those of `KeyRestrictions` |
| QueryProps.KeyRestrictionsMeaning | empire-db/src/main/java/org/apache/empire/db/DBQuery.java:478-487 | fails exactly when a key column of the table has no stored key value; otherwise exactly one equality per key column of the table on its stored value |
| QueryProps.KeyRestrictionsErrors | empire-db/src/main/java/org/apache/empire/db/DBQuery.java:478-487 | a failure is a null dereference or an index out of range |
| QueryProps.TableStatementErrors | empire-db/src/main/java/org/apache/empire/db/DBQuery.java:437-513 | building a table's statement throws only NullReference, IndexOutOfRange, ItemNotFound or NotSupported |
| Query.DBQuery.UpdateTable | empire-db/src/main/java/org/apache/empire/db/DBQuery.java:427-539 | the statements executed, the fields and the progress after one table are those of `TableStep`: the table's statement as `TableStatement` builds it (contents in `TableStatementMeaning`), then the affected-row count and the timestamp write-back |
| QueryProps.TableStepExecutes | empire-db/src/main/java/org/apache/empire/db/DBQuery.java:433-516 | one table executes at most one statement, for that table, starting with its non-empty SET list; that statement is the one `TableStatement` builds for the table from the current fields |
| QueryProps.RunTablesStatements | empire-db/src/main/java/org/apache/empire/db/DBQuery.java:427-435 | every executed statement belongs to a visited table and starts with that table's non-empty SET list |
| QueryProps.RunTablesBuilt | empire-db/src/main/java/org/apache/empire/db/DBQuery.java:427-536 | every statement the run executes is the one `TableStatement` builds for its table, from the record with each field its own value or the new timestamp |
| QueryProps.RunTablesDistinct | empire-db/src/main/java/org/apache/empire/db/DBQuery.java:394-427 | no table is updated twice |
| QueryProps.RunTablesCounts | empire-db/src/main/java/org/apache/empire/db/DBQuery.java:516-531 | the progress of the run is what the affected-row counts say |
| QueryProps.RunTablesFields | empire-db/src/main/java/org/apache/empire/db/DBQuery.java:532-536 | every field is the record's own or the new timestamp |
| QueryProps.RunTablesCovers | empire-db/src/main/java/org/apache/empire/db/DBQuery.java:427-539 | a run through all tables executed a statement for every table with something to update |
| QueryProps.RunTablesTimestamps | empire-db/src/main/java/org/apache/empire/db/DBQuery.java:489-536 | after a run through all tables, the projected timestamp field of each updated table holds the new timestamp |
| Query.DBQuery.RunUpdates | empire-db/src/main/java/org/apache/empire/db/DBQuery.java:427-539 | the statements executed, the fields and the progress after the loop over the command map are those of `RunTables` over the whole iteration order |
| Query.DBQuery.UpdateRecord | empire-db/src/main/java/org/apache/empire/db/DBQuery.java:374-543 | the statements executed, the outcome and the record's final state are those of `UpdateSpec`; each statement executed is the one built for its table (`UpdateStatementsBuilt`); only a completed run clears the modified flags (`UpdateCompletes`, `UpdateAbortKeepsState`) |
| QueryProps.EmptyKeysUnrestricted | empire-db/src/main/java/org/apache/empire/db/DBQuery.java:196-199 | an empty key column array passes isUpdateable, and each statement then has no key restriction: its WHERE list is the join restrictions, the carried predicates and the old-timestamp check only |
| QueryProps.UpdateGuards | empire-db/src/main/java/org/apache/empire/db/DBQuery.java:377-386 | checks in order: not updateable → NotSupported, no record → InvalidArgument, no connection → InvalidArgument, unmodified → nothing executed and record unchanged; statements run only when every modified field validated |
| QueryProps.UpdateErrors | empire-db/src/main/java/org/apache/empire/db/DBQuery.java:374-543 | the only exceptions are NotSupported, InvalidArgument, InvalidValue, ItemNotFound, RecordUpdateFailed, RecordUpdateInvalid, null dereference and index out of range; in particular the NoPrimaryKey check (388-390) never fires |
| QueryProps.UpdateCounts | empire-db/src/main/java/org/apache/empire/db/DBQuery.java:515-531 | completed: every statement changed one row; rolled back: the last count was negative; RecordUpdateFailed: the last count was 0; RecordUpdateInvalid: the last count exceeded 1; all earlier statements changed one row |
| QueryProps.UpdateStatements | empire-db/src/main/java/org/apache/empire/db/DBQuery.java:394-435 | executed statements update distinct tables, each first setting exactly that table's modified fields, none for a table without modified fields |
| QueryProps.UpdateStatementsBuilt | empire-db/src/main/java/org/apache/empire/db/DBQuery.java:394-536 | every statement updateRecord executes is the one `TableStatement` builds for its table from the collected SET lists |
| QueryProps.UpdateAbortKeepsState | empire-db/src/main/java/org/apache/empire/db/DBQuery.java:515-542 | updateComplete runs only after every table succeeded: on a rollback, an exception or a guard, the record keeps its modified flags and stored key and each field is its own value or a timestamp already written back; a rolled-back record is still modified |
| QueryProps.CompletedRun | empire-db/src/main/java/org/apache/empire/db/DBQuery.java:427-542 | a completed update is a run through every table that never stopped, followed by updateComplete |
| QueryProps.UpdateCompletes | empire-db/src/main/java/org/apache/empire/db/DBQuery.java:532-542 | after completion no field is modified, the stored key is kept, and every field is its old value or the new timestamp |
| QueryProps.UpdateWritesEveryModified | empire-db/src/main/java/org/apache/empire/db/DBQuery.java:394-539 | after completion every modified field of a table column was written, with its value, in a statement for its table |
| QueryProps.UpdateStampsTimestamps | empire-db/src/main/java/org/apache/empire/db/DBQuery.java:489-536 | after completion the projected timestamp field of each updated table holds the new timestamp |
| QueryProps.UpdateIdempotent | empire-db/src/main/java/org/apache/empire/db/DBQuery.java:384-386 | after a completed update a second update executes nothing |
| CaseExpr.CaseExpr.constructor | empire-db/src/main/java/org/apache/empire/db/expr/column/DBCaseExpr.java:43-53 | a new case expression knows no database, source column, type or enum type and is not aggregate |
| CaseExpr.CaseExpr.GetUpdateColumn | empire-db/src/main/java/org/apache/empire/db/expr/column/DBCaseExpr.java:80-84 | a case expression never has an update column |
| CaseExpr.CaseExpr.Init | empire-db/src/main/java/org/apache/empire/db/expr/column/DBCaseExpr.java:135-148 | called as from a constructor, with every attribute but the database at its initial value, the fields after init are `Infer` of the case column, the pairs in iteration order and the else value; the getters then report the case column's database or else the first one offered, and the first source column, known data type (else UNKNOWN) and enum type offered by the targets, the else value last, and aggregate iff some compare or target value is |
| CaseExpr.CaseExpr.RegisterCompareValue | empire-db/src/main/java/org/apache/empire/db/expr/column/DBCaseExpr.java:150-159 | the fields become `RegisterCompare` of the old fields |
| CaseExpr.CaseExpr.RegisterTargetValue | empire-db/src/main/java/org/apache/empire/db/expr/column/DBCaseExpr.java:161-188 | the fields become `RegisterTarget` of the old fields |
| CaseSpec.RegisterCompare | empire-db/src/main/java/org/apache/empire/db/expr/column/DBCaseExpr.java:150-159 | the database is kept or, if unset, taken from the compare value; the flag becomes aggregate when the value (unwrapped from a column comparison) is; nothing else changes |
| CaseSpec.RegisterTarget | empire-db/src/main/java/org/apache/empire/db/expr/column/DBCaseExpr.java:161-188 | each attribute is kept or, if unset, taken from what the target offers; aggregate is or-ed; a null target changes nothing |
| CaseProps.NullValueExprIgnored | empire-db/src/main/java/org/apache/empire/db/expr/column/DBCaseExpr.java:113-126 | a Java null and a value expression holding null are null and change nothing as targets; the same expression holding a value is not null and reports its own metadata |
| CaseProps.InertTargets | empire-db/src/main/java/org/apache/empire/db/expr/column/DBCaseExpr.java:164-181 | null targets and DBExpr targets that are not column expressions contribute nothing |
| CaseProps.EntriesDatabase | empire-db/src/main/java/org/apache/empire/db/expr/column/DBCaseExpr.java:142-171 | after n pairs the database is the initial one or else the first database offered, compare value before target value |
| CaseProps.EntriesSource | empire-db/src/main/java/org/apache/empire/db/expr/column/DBCaseExpr.java:172-173 | after n pairs the source column is the first one a target offers |
| CaseProps.EntriesType | empire-db/src/main/java/org/apache/empire/db/expr/column/DBCaseExpr.java:174-184 | after n pairs the data type is the first known type a target offers |
| CaseProps.EntriesEnum | empire-db/src/main/java/org/apache/empire/db/expr/column/DBCaseExpr.java:176-186 | after n pairs the enum type is the first one a target offers |
| CaseProps.EntriesAggregate | empire-db/src/main/java/org/apache/empire/db/expr/column/DBCaseExpr.java:155-179 | after n pairs the flag is set iff it was initially or some compare or target value among them is aggregate |
| CaseProps.EntriesSettled | empire-db/src/main/java/org/apache/empire/db/expr/column/DBCaseExpr.java:153-186 | later pairs never override an attribute already set, and the aggregate flag never returns to false |
| CaseProps.InferKeepsSettled | empire-db/src/main/java/org/apache/empire/db/expr/column/DBCaseExpr.java:142-147 | what is set after any prefix of the pairs is final: the else value only fills attributes still unset |
| CaseProps.InferDatabase | empire-db/src/main/java/org/apache/empire/db/expr/column/DBCaseExpr.java:141-171 | the database is the case column's or else the first one offered by a compare or target value, the else value last |
| CaseProps.InferSource | empire-db/src/main/java/org/apache/empire/db/expr/column/DBCaseExpr.java:137-173 | the source column is the first one a target (else value last) offers |
| CaseProps.InferMatchesReference | empire-db/src/main/java/org/apache/empire/db/expr/column/DBCaseExpr.java:135-188 | the metadata init computes equals the independent reference: the case column's database or else the first one offered, the first source column, known data type (else UNKNOWN) and enum type the targets offer with the else value last, and aggregate iff some compare or target value is |
| CaseProps.SourceIgnoresCaseColumn | empire-db/src/main/java/org/apache/empire/db/expr/column/DBCaseExpr.java:137-141 | the case column never decides the source column |
| CaseProps.InferType | empire-db/src/main/java/org/apache/empire/db/expr/column/DBCaseExpr.java:174-184 | the data type is the first known type a target offers, else UNKNOWN |
| CaseProps.FirstKnownTypeWins | empire-db/src/main/java/org/apache/empire/db/expr/column/DBCaseExpr.java:174-184 | the first target with a known type decides the data type whatever later targets and the else value offer |
| CaseProps.InferEnum | empire-db/src/main/java/org/apache/empire/db/expr/column/DBCaseExpr.java:176-186 | the enum type is the first one a target offers |
| CaseProps.InferAggregate | empire-db/src/main/java/org/apache/empire/db/expr/column/DBCaseExpr.java:155-179 | aggregate exactly when some compare value or target value is aggregate |
| CaseProps.DecimalBranchWins | empire-db/src/main/java/org/apache/empire/db/expr/column/DBCaseExpr.java:142-184 | pairs {condA: DECIMAL column expression, condB: null} with else value 5 give a DECIMAL expression |

## Left out

- SQL rendering and parameter lists: `getSelect`, `getUpdate`, `addParam` and the parameter values passed to `executeSQL` are not modelled. A statement is its table, its SET list and its WHERE list. Prepared mode only decides whether a value is a literal or a parameter, and a re-bound parameter keeps its value.
- `DBCommand` is not part of this model. Its `set` and `where` are taken to append, so a repeated column is not replaced. If the code replaces a restriction on the same column, `QueryProps.ReadAccumulates` describes the appending reading only.
- Query.DBQuery.FindQueryColumn: expressions are compared by structural value equality. The Java `equals` of most column expressions is object identity, so two equal-looking but distinct expression objects match here but not in the code.
- Connections, `executeSQL`, `rollback` and `getUpdateTimestamp` are a `Database` value. It supplies one affected-row count per statement, one select result per WHERE list and one update timestamp for the whole call. A rollback is the outcome `RolledBack`; undoing the tables already updated is the database's business.
- The order of `HashMap.entrySet` is a parameter (`order` of `UpdateRecord`).
- `DBColumn.validate` is a predicate of the schema that may reject a value.
- `DBRowSet.isKeyColumn` and `getTimestampColumn` are part of the schema. `getColumnIndex` is the first index in the column list. `ObjectUtils.isEmpty` holds for null, NO_VALUE and the empty string.
- `StringUtils.compareEqual` is a parameter of `FindQueryColumnByName`.
- `DataType.fromJavaType` is a parameter of `Init`, and so is the Enum test on a value's class.
- `prepareInitRecord` and `completeInitRecord` (DBRowSet) are not part of this model. `InitRecord` takes a record already bound, with one field per column. `prepareInitRecord(rec, keyValues, insert)` storing the key values as the record's row-set data is therefore not modelled.
- `addXml`, logging, `getName`, `getAlias`, `getCommandExpr`, `getQueryColumns` and `getKeyColumns` are left out. They report fields or produce output and state nothing beyond the fields themselves.
- Query.AliasCounter.NextAlias: the counter is an unbounded `nat`. The 32-bit wrap-around of `AtomicInteger` is not modelled, so in the code generated aliases repeat after 2^32 queries (and turn negative before that), which `AliasNamesDistinct` does not cover. The atomicity of `AtomicInteger` is a concurrency matter and is not modelled either.
- Query.DBQuery.ReadRecord: the key array is stored as a value, so the defensive `key.clone()` needs no counterpart.
- Query.DBQuery.ReadRecord: binding and sizing the record by `DBRowSet.readRecord`, `initRecord` and `prepareInitRecord` is not part of this model; the record must already be bound with one field per column, and a found row is copied into its fields.
- CaseExpr.CaseExpr.Init: init is only called from the constructors, so it requires every attribute but the database at its initial value; a second call on an initialised expression, where the code would keep earlier attributes, is not modelled.
- Query.DBQuery.UpdateRecord: the record is bound to this query and has one field and one flag per column (the rowset's own invariant).
