/**
 * The behaviour of DBQuery's record operations as functions over values:
 * the per-table update commands built by updateRecord, the WHERE restrictions
 * added to each, the timestamp handling, the outcome read from the affected
 * row counts, and the effect of readRecord and initRecord. The methods of
 * class DBQuery are proved to compute exactly these.
 */
module QuerySpec {
  import opened Outcomes
  import opened DBSchema
  import opened Records

  /**
   * What updateRecord and readRecord read of a query: the update column of
   * each select expression (null for computed ones), the declared key columns
   * (null when none were given), whether the wrapped command expression is a
   * plain DBCommand, and that command's join and WHERE lists.
   */
  datatype QueryDef = QueryDef(
    columns: seq<Option<Column>>,
    keyColumns: Option<seq<Column>>,
    isCommand: bool,
    joins: seq<Join>,
    where: seq<Predicate>)

  /** The record is bound to a rowset with these columns: one field and one flag per column. */
  predicate Fits(cols: seq<Option<Column>>, r: RecordState)
  {
    |r.fields| == |cols| && |r.modified| == |cols|
  }

  // ---------------------------------------------------------------------
  // Step 1: one SET list per table (DBQuery.java lines 394-421)
  // ---------------------------------------------------------------------

  /** The SET list collected so far for table t, or empty when the table has no command yet. */
  function SetsFor(m: map<TableId, seq<Assignment>>, t: TableId): seq<Assignment>
  {
    if t in m then m[t] else []
  }

  /**
   * The per-table SET lists after visiting the first n columns: a command is
   * created for the table of every non-null column, and every modified field
   * is validated and appended as an assignment to its table's command.
   */
  function CollectSets(cols: seq<Option<Column>>, r: RecordState, validate: (Column, Value) -> bool, n: nat)
    : Result<map<TableId, seq<Assignment>>, Error>
    requires n <= |cols| && Fits(cols, r)
  {
    if n == 0 then Success(map[])
    else match CollectSets(cols, r, validate, n - 1)
      case Failure(e) => Failure(e)
      case Success(acc) =>
        match cols[n - 1]
        case None => Success(acc)
        case Some(c) =>
          if !r.modified[n - 1] then Success(acc[c.table := SetsFor(acc, c.table)])
          else if !validate(c, r.fields[n - 1]) then Failure(InvalidValue(c))
          else Success(acc[c.table := SetsFor(acc, c.table) + [Assign(c, r.fields[n - 1])]])
  }

  // ---------------------------------------------------------------------
  // Step 2a: join-derived restrictions (lines 437-451, 548-570)
  // ---------------------------------------------------------------------

  /**
   * addJoinRestriction's choice of value for updCol, whose join counterpart is
   * keyCol: the stored key tuple when keyCol is a declared key and the record
   * has row-set data; otherwise the record's field for updCol, or failing that
   * for keyCol, unless that field was modified. Success(None) is the "false"
   * the caller turns into ItemNotFound.
   */
  function JoinValue(cols: seq<Option<Column>>, keyCols: seq<Column>, r: RecordState, updCol: Column, keyCol: Option<Column>)
    : Result<Option<Value>, Error>
    requires Fits(cols, r)
  {
    var k := if keyCol.Some? then IndexOf(keyCols, keyCol.value) else None;
    if k.Some? && r.rowSetData.Some? then
      if k.value < |r.rowSetData.value| then Success(Some(r.rowSetData.value[k.value]))
      else Failure(IndexOutOfRange)
    else
      var idx := if IndexOf(cols, Some(updCol)).Some? then IndexOf(cols, Some(updCol)) else IndexOf(cols, keyCol);
      match idx
      case None => Success(None)
      case Some(i) => if r.modified[i] then Success(None) else Success(Some(r.fields[i]))
  }

  /** One side of a column join: restrict updCol when it belongs to table t and is a key column of it. */
  function JoinSide(cols: seq<Option<Column>>, keyCols: seq<Column>, s: Schema, t: TableId, r: RecordState,
                    acc: seq<Predicate>, updCol: Column, counterpart: Option<Column>): Result<seq<Predicate>, Error>
    requires Fits(cols, r)
  {
    if updCol.table == t && IsKeyColumn(s, t, updCol) then
      match JoinValue(cols, keyCols, r, updCol, counterpart)
      case Failure(e) => Failure(e)
      case Success(None) => Failure(ItemNotFound(updCol))
      case Success(Some(v)) => Success(acc + [Is(updCol, Lit(v))])
    else Success(acc)
  }

  /** The join restrictions for table t from the first n joins of the wrapped command. */
  function JoinRestrictions(q: QueryDef, keyCols: seq<Column>, s: Schema, t: TableId, r: RecordState, n: nat)
    : Result<seq<Predicate>, Error>
    requires n <= |q.joins| && Fits(q.columns, r)
  {
    if n == 0 then Success([])
    else match JoinRestrictions(q, keyCols, s, t, r, n - 1)
      case Failure(e) => Failure(e)
      case Success(acc) =>
        match q.joins[n - 1]
        case OtherJoin(_) => Success(acc)
        case ColumnJoin(le, re) =>
          match UpdateColumn(le)
          case None => Failure(NullReference)
          case Some(left) =>
            match JoinSide(q.columns, keyCols, s, t, r, acc, left, UpdateColumn(re))
            case Failure(e) => Failure(e)
            case Success(acc1) =>
              match UpdateColumn(re)
              case None => Failure(NullReference)
              case Some(right) => JoinSide(q.columns, keyCols, s, t, r, acc1, right, Some(left))
  }

  // ---------------------------------------------------------------------
  // Step 2b: the original query's restrictions (lines 453-476)
  // ---------------------------------------------------------------------

  /** The column comparison belongs to table t. */
  predicate OnTable(p: Predicate, t: TableId)
  {
    p.ColCompare? && UpdateColumn(p.expr).Some? && UpdateColumn(p.expr).value.table == t
  }

  /**
   * The first n WHERE predicates of the wrapped command that compare a column
   * of table t, in order; any predicate that is not a column comparison fails.
   * A parameter operand is re-bound to a fresh parameter with the same value,
   * which in this model is the same operand.
   */
  function CarriedWhere(preds: seq<Predicate>, t: TableId, n: nat): Result<seq<Predicate>, Error>
    requires n <= |preds|
  {
    if n == 0 then Success([])
    else match CarriedWhere(preds, t, n - 1)
      case Failure(e) => Failure(e)
      case Success(acc) =>
        if !preds[n - 1].ColCompare? then Failure(NotSupported)
        else if OnTable(preds[n - 1], t) then Success(acc + [preds[n - 1]])
        else Success(acc)
  }

  // ---------------------------------------------------------------------
  // Step 2c: key restrictions (lines 478-487)
  // ---------------------------------------------------------------------

  /** One equality per declared key column (among the first n) owned by table t, on the stored key tuple. */
  function KeyRestrictions(keyCols: seq<Column>, keys: Option<seq<Value>>, prepared: bool, t: TableId, n: nat)
    : Result<seq<Predicate>, Error>
    requires n <= |keyCols|
  {
    if n == 0 then Success([])
    else match KeyRestrictions(keyCols, keys, prepared, t, n - 1)
      case Failure(e) => Failure(e)
      case Success(acc) =>
        if keyCols[n - 1].table != t then Success(acc)
        else if keys.None? then Failure(NullReference)
        else if n - 1 >= |keys.value| then Failure(IndexOutOfRange)
        else Success(acc + [Is(keyCols[n - 1], Bind(prepared, keys.value[n - 1]))])
  }

  // ---------------------------------------------------------------------
  // Step 3: the update timestamp (lines 489-513)
  // ---------------------------------------------------------------------

  /** The SET and WHERE entries the timestamp adds, and the field to write the new timestamp back to. */
  datatype TimestampPlan = TimestampPlan(sets: seq<Assignment>, wheres: seq<Predicate>, writeBack: Option<nat>)

  function TimestampPart(s: Schema, db: Database, cols: seq<Option<Column>>, fields: seq<Value>, t: TableId)
    : (p: TimestampPlan)
    requires |fields| == |cols|
    ensures p.writeBack.Some? ==> p.writeBack.value < |cols|
  {
    match TimestampColumn(s, t)
    case None => TimestampPlan([], [], None)
    case Some(ts) =>
      match IndexOf(cols, Some(ts))
      case Some(i) =>
        TimestampPlan([Assign(ts, db.now)],
                      if IsEmpty(fields[i]) then [] else [Is(ts, Bind(db.prepared, fields[i]))],
                      Some(i))
      case None => TimestampPlan([Assign(ts, Sysdate)], [], None)
  }

  // ---------------------------------------------------------------------
  // The statement for one table and the run over all tables (lines 427-542)
  // ---------------------------------------------------------------------

  /** The update statement for one table and the timestamp field to write back after it succeeds. */
  datatype Planned = Planned(stmt: Statement, writeBack: Option<nat>)

  function TableStatement(q: QueryDef, keyCols: seq<Column>, s: Schema, db: Database, r: RecordState,
                          t: TableId, sets: seq<Assignment>): (res: Result<Planned, Error>)
    requires Fits(q.columns, r)
    ensures res.Success? && res.value.writeBack.Some? ==> res.value.writeBack.value < |q.columns|
  {
    match JoinRestrictions(q, keyCols, s, t, r, |q.joins|)
    case Failure(e) => Failure(e)
    case Success(joins) =>
      match CarriedWhere(q.where, t, |q.where|)
      case Failure(e) => Failure(e)
      case Success(carried) =>
        match KeyRestrictions(keyCols, r.rowSetData, db.prepared, t, |keyCols|)
        case Failure(e) => Failure(e)
        case Success(keyPreds) =>
          var ts := TimestampPart(s, db, q.columns, r.fields, t);
          Success(Planned(Statement(t, sets + ts.sets, joins + carried + keyPreds + ts.wheres), ts.writeBack))
  }

  /** Where the run over the tables stands: still going, rolled back, or failed with an exception. */
  datatype Progress = Going | Aborted | Failed(error: Error)

  /** The statements executed so far, the record's fields, and the progress. */
  datatype RunState = RunState(executed: seq<Statement>, fields: seq<Value>, progress: Progress)

  /**
   * Processing one table: a table without SET entries is skipped; otherwise
   * its statement is built and executed, and the affected-row count decides:
   * 0 fails, a negative count rolls back and stops, more than 1 fails, and
   * exactly 1 writes the new timestamp back into its field.
   */
  function TableStep(q: QueryDef, keyCols: seq<Column>, s: Schema, db: Database, r0: RecordState,
                     sets: map<TableId, seq<Assignment>>, st: RunState, t: TableId): (res: RunState)
    requires Fits(q.columns, r0) && |st.fields| == |q.columns|
    ensures |res.fields| == |q.columns|
  {
    var ss := SetsFor(sets, t);
    if ss == [] then st
    else
      match TableStatement(q, keyCols, s, db, r0.(fields := st.fields), t, ss)
      case Failure(e) => st.(progress := Failed(e))
      case Success(p) =>
        var affected := db.execute(p.stmt);
        var executed := st.executed + [p.stmt];
        if affected == 0 then RunState(executed, st.fields, Failed(RecordUpdateFailed))
        else if affected < 0 then RunState(executed, st.fields, Aborted)
        else if affected > 1 then RunState(executed, st.fields, Failed(RecordUpdateInvalid))
        else if p.writeBack.Some? then RunState(executed, st.fields[p.writeBack.value := db.now], Going)
        else RunState(executed, st.fields, Going)
  }

  /** The run over the first n tables of the map's iteration order; it stops at the first table that does not succeed. */
  function RunTables(q: QueryDef, keyCols: seq<Column>, s: Schema, db: Database, r0: RecordState,
                     sets: map<TableId, seq<Assignment>>, order: seq<TableId>, n: nat): (res: RunState)
    requires n <= |order| && Fits(q.columns, r0)
    ensures |res.fields| == |q.columns|
  {
    if n == 0 then RunState([], r0.fields, Going)
    else
      var st := RunTables(q, keyCols, s, db, r0, sets, order, n - 1);
      if st.progress != Going then st
      else TableStep(q, keyCols, s, db, r0, sets, st, order[n - 1])
  }

  // ---------------------------------------------------------------------
  // updateRecord as a whole (lines 374-543)
  // ---------------------------------------------------------------------

  /** How updateRecord returns normally: nothing to update, all tables updated, or rolled back. */
  datatype UpdateStatus = NothingToUpdate | Completed | RolledBack

  /** The statements executed, the record's final state, and how the call ended. */
  datatype UpdateRun = UpdateRun(executed: seq<Statement>, record: Option<RecordState>, outcome: Result<UpdateStatus, Error>)

  function UpdateSpec(q: QueryDef, s: Schema, db: Database, rec: Option<RecordState>, conn: Option<Connection>,
                      order: seq<TableId>): UpdateRun
    requires rec.Some? ==> Fits(q.columns, rec.value)
  {
    if q.keyColumns.None? then UpdateRun([], rec, Failure(NotSupported))
    else if rec.None? then UpdateRun([], rec, Failure(InvalidArgument))
    else if conn.None? then UpdateRun([], rec, Failure(InvalidArgument))
    else if !AnyModified(rec.value) then UpdateRun([], rec, Success(NothingToUpdate))
    // The NoPrimaryKey check of the source comes here; keyColumns is known to be non-null at this point.
    else
      var r := rec.value;
      match CollectSets(q.columns, r, s.validate, |q.columns|)
      case Failure(e) => UpdateRun([], rec, Failure(e))
      case Success(sets) =>
        if !q.isCommand then UpdateRun([], rec, Failure(NotSupported))
        else
          var st := RunTables(q, q.keyColumns.value, s, db, r, sets, order, |order|);
          match st.progress
          case Going =>
            UpdateRun(st.executed, Some(RecordState(st.fields, Cleared(|r.modified|), r.rowSetData)), Success(Completed))
          case Aborted => UpdateRun(st.executed, Some(r.(fields := st.fields)), Success(RolledBack))
          case Failed(e) => UpdateRun(st.executed, Some(r.(fields := st.fields)), Failure(e))
  }

  // ---------------------------------------------------------------------
  // readRecord (lines 339-365)
  // ---------------------------------------------------------------------

  /** The first n key predicates readRecord adds: keyColumns[i] = key[i], as a parameter in prepared mode. */
  function KeyPredicates(keyCols: seq<Column>, key: seq<Value>, prepared: bool, n: nat): (r: seq<Predicate>)
    requires n <= |keyCols| && n <= |key|
    ensures |r| == n
  {
    if n == 0 then [] else KeyPredicates(keyCols, key, prepared, n - 1) + [Is(keyCols[n - 1], Bind(prepared, key[n - 1]))]
  }

  /** The wrapped command's WHERE list after the call, the record's final state, and the outcome. */
  datatype ReadRun = ReadRun(where: seq<Predicate>, record: Option<RecordState>, outcome: Outcome<Error>)

  function ReadSpec(q: QueryDef, db: Database, rec: Option<RecordState>, key: Option<seq<Value>>, conn: Option<Connection>)
    : ReadRun
  {
    if conn.None? || rec.None? then ReadRun(q.where, rec, Fail(InvalidArgument))
    else if key.None? then ReadRun(q.where, rec, Fail(InvalidKey))
    else if q.keyColumns.None? then ReadRun(q.where, rec, Fail(NullReference))
    else if |q.keyColumns.value| != |key.value| then ReadRun(q.where, rec, Fail(InvalidKey))
    else if !q.isCommand then ReadRun(q.where, rec, Fail(NotSupported))
    else
      var w := q.where + KeyPredicates(q.keyColumns.value, key.value, db.prepared, |key.value|);
      match db.select(w)
      case None => ReadRun(w, rec, Fail(RecordNotFound))
      case Some(row) => ReadRun(w, Some(RecordState(row, Cleared(|row|), key)), Pass)
  }

  // ---------------------------------------------------------------------
  // initRecord (lines 298-316)
  // ---------------------------------------------------------------------

  /** The fields after placing the first n key values, and whether an exception stopped the placement. */
  datatype Placement = Placement(fields: seq<Value>, outcome: Outcome<Error>)

  /** For each of the first n key columns that is a rowset column, its key value goes into that column's field. */
  function PlaceKeys(cols: seq<Option<Column>>, keyCols: seq<Column>, vals: seq<Value>, base: seq<Value>, n: nat)
    : (p: Placement)
    requires n <= |keyCols| && |base| == |cols|
    ensures |p.fields| == |cols|
  {
    if n == 0 then Placement(base, Pass)
    else
      var p := PlaceKeys(cols, keyCols, vals, base, n - 1);
      if p.outcome.Fail? then p
      else match IndexOf(cols, Some(keyCols[n - 1]))
        case None => p
        case Some(j) =>
          if n - 1 < |vals| then Placement(p.fields[j := vals[n - 1]], Pass)
          else Placement(p.fields, Fail(IndexOutOfRange))
  }

  /** Every field cleared to NoValue. */
  function Blank(n: nat): (r: seq<Value>)
    ensures |r| == n && forall i :: 0 <= i < n ==> r[i] == NoValue
  {
    seq(n, _ => NoValue)
  }

  function InitSpec(cols: seq<Option<Column>>, keyCols: Option<seq<Column>>, keyValues: Option<seq<Value>>): (p: Placement)
    ensures |p.fields| == |cols|
  {
    if keyValues.None? then Placement(Blank(|cols|), Pass)
    else if keyCols.None? then Placement(Blank(|cols|), Fail(NullReference))
    else PlaceKeys(cols, keyCols.value, keyValues.value, Blank(|cols|), |keyCols.value|)
  }

  /** The tables owning the rowset's non-null columns: the keys of updateRecord's command map. */
  function Tables(cols: seq<Option<Column>>): (r: set<TableId>)
    ensures forall i :: 0 <= i < |cols| && cols[i].Some? ==> cols[i].value.table in r
  {
    set i | 0 <= i < |cols| && cols[i].Some? :: cols[i].value.table
  }

  // ---------------------------------------------------------------------
  // Once an exception is thrown, later steps change nothing.
  // ---------------------------------------------------------------------

  lemma {:induction false} CollectSetsSticks(cols: seq<Option<Column>>, r: RecordState, validate: (Column, Value) -> bool, n: nat, m: nat)
    requires n <= m <= |cols| && Fits(cols, r)
    requires CollectSets(cols, r, validate, n).Failure?
    ensures CollectSets(cols, r, validate, m) == CollectSets(cols, r, validate, n)
    decreases m
  {
    if m > n { CollectSetsSticks(cols, r, validate, n, m - 1); }
  }

  lemma {:induction false} JoinRestrictionsSticks(q: QueryDef, keyCols: seq<Column>, s: Schema, t: TableId, r: RecordState, n: nat, m: nat)
    requires n <= m <= |q.joins| && Fits(q.columns, r)
    requires JoinRestrictions(q, keyCols, s, t, r, n).Failure?
    ensures JoinRestrictions(q, keyCols, s, t, r, m) == JoinRestrictions(q, keyCols, s, t, r, n)
    decreases m
  {
    if m > n { JoinRestrictionsSticks(q, keyCols, s, t, r, n, m - 1); }
  }

  lemma {:induction false} CarriedWhereSticks(preds: seq<Predicate>, t: TableId, n: nat, m: nat)
    requires n <= m <= |preds|
    requires CarriedWhere(preds, t, n).Failure?
    ensures CarriedWhere(preds, t, m) == CarriedWhere(preds, t, n)
    decreases m
  {
    if m > n { CarriedWhereSticks(preds, t, n, m - 1); }
  }

  lemma {:induction false} KeyRestrictionsSticks(keyCols: seq<Column>, keys: Option<seq<Value>>, prepared: bool, t: TableId, n: nat, m: nat)
    requires n <= m <= |keyCols|
    requires KeyRestrictions(keyCols, keys, prepared, t, n).Failure?
    ensures KeyRestrictions(keyCols, keys, prepared, t, m) == KeyRestrictions(keyCols, keys, prepared, t, n)
    decreases m
  {
    if m > n { KeyRestrictionsSticks(keyCols, keys, prepared, t, n, m - 1); }
  }

  lemma {:induction false} RunTablesSticks(q: QueryDef, keyCols: seq<Column>, s: Schema, db: Database, r0: RecordState,
                                           sets: map<TableId, seq<Assignment>>, order: seq<TableId>, n: nat, m: nat)
    requires n <= m <= |order| && Fits(q.columns, r0)
    requires RunTables(q, keyCols, s, db, r0, sets, order, n).progress != Going
    ensures RunTables(q, keyCols, s, db, r0, sets, order, m) == RunTables(q, keyCols, s, db, r0, sets, order, n)
    decreases m
  {
    if m > n { RunTablesSticks(q, keyCols, s, db, r0, sets, order, n, m - 1); }
  }

  lemma {:induction false} PlaceKeysSticks(cols: seq<Option<Column>>, keyCols: seq<Column>, vals: seq<Value>, base: seq<Value>, n: nat, m: nat)
    requires n <= m <= |keyCols| && |base| == |cols|
    requires PlaceKeys(cols, keyCols, vals, base, n).outcome.Fail?
    ensures PlaceKeys(cols, keyCols, vals, base, m) == PlaceKeys(cols, keyCols, vals, base, n)
    decreases m
  {
    if m > n { PlaceKeysSticks(cols, keyCols, vals, base, n, m - 1); }
  }
}
