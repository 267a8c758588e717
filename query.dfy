/**
 * DBQuery: a select command wrapped as a pseudo-table. Its columns are the
 * update columns of the select list; with key columns it can read a record
 * by key and write a modified record back, one update statement per real
 * table that owns a modified column.
 */
module Query {
  import opened Outcomes
  import opened DBSchema
  import opened Records
  import opened QuerySpec

  /** The wrapped command (DBCommand): its select list, joins and WHERE list. */
  class Command {
    /** False for a compound command expression (such as a union), which is not a DBCommand. */
    const isCommand: bool
    var select: seq<ColumnExpr>
    var joins: seq<Join>
    var where: seq<Predicate>

    constructor (isCommand: bool, select: seq<ColumnExpr>, joins: seq<Join>, where: seq<Predicate>)
      ensures this.isCommand == isCommand && this.select == select && this.joins == joins && this.where == where
    {
      this.isCommand := isCommand;
      this.select := select;
      this.joins := joins;
      this.where := where;
    }
  }

  /** A java.lang.StringBuilder, only as far as appending goes. */
  class StringBuilder {
    var text: string

    constructor ()
      ensures text == ""
    {
      text := "";
    }

    method Append(s: string)
      modifies this
      ensures text == old(text) + s
    {
      text := text + s;
    }
  }

  /** The decimal digits of n, as String.valueOf renders it. */
  function DecimalString(n: nat): (r: string)
    ensures |r| >= 1 && forall i :: 0 <= i < |r| ==> '0' <= r[i] <= '9'
  {
    if n < 10 then [(n + '0' as int) as char]
    else DecimalString(n / 10) + [((n % 10) + '0' as int) as char]
  }

  /** The generated alias of the n-th query: "q" followed by n. */
  function AliasName(n: nat): string
  {
    "q" + DecimalString(n)
  }

  /** The process-wide query counter that numbers generated aliases. */
  class AliasCounter {
    var count: nat

    constructor ()
      ensures count == 0
    {
      count := 0;
    }

    /** incrementAndGet, and the alias it yields. */
    method NextAlias() returns (alias: string)
      modifies this
      ensures count == old(count) + 1 && alias == AliasName(count)
    {
      count := count + 1;
      alias := AliasName(count);
    }
  }

  /** The flag bit of the SQL rendering context that asks for the alias. */
  const CTX_ALIAS: bv64 := 0x0008

  class DBQuery {
    /** The wrapped command expression. */
    const cmdExpr: Command
    /** The declared key columns, null when none were given. */
    const keyColumns: Option<seq<Column>>
    /** The query columns: the select expressions they stand for. */
    const queryColumns: seq<ColumnExpr>
    /** The rowset's columns: the update column of each select expression. */
    const columns: seq<Option<Column>>
    const alias: Option<string>

    ghost predicate Valid()
      reads this
    {
      |columns| == |queryColumns| &&
      forall i :: 0 <= i < |columns| ==> columns[i] == UpdateColumn(queryColumns[i])
    }

    /** What the record operations read of this query. */
    function Def(): (d: QueryDef)
      reads this, cmdExpr
      ensures d.columns == columns && d.keyColumns == keyColumns && d.where == cmdExpr.where
    {
      QueryDef(columns, keyColumns, cmdExpr.isCommand, cmdExpr.joins, cmdExpr.where)
    }

    /** The columns are taken from the command's select list, one per select expression. */
    constructor (cmd: Command, keyColumns: Option<seq<Column>>, alias: Option<string>)
      ensures Valid()
      ensures cmdExpr == cmd && queryColumns == cmd.select && this.keyColumns == keyColumns && this.alias == alias
    {
      var exprList := cmd.select;
      var cols: seq<Option<Column>> := [];
      var i := 0;
      while i < |exprList|
        invariant 0 <= i <= |exprList| && |cols| == i
        invariant forall j :: 0 <= j < i ==> cols[j] == UpdateColumn(exprList[j])
      {
        cols := cols + [UpdateColumn(exprList[i])];
        i := i + 1;
      }
      cmdExpr := cmd;
      queryColumns := exprList;
      columns := cols;
      this.keyColumns := keyColumns;
      this.alias := alias;
    }

    /** The constructor without an alias: the alias is generated from the query counter. */
    constructor Generated(cmd: Command, keyColumns: Option<seq<Column>>, counter: AliasCounter)
      modifies counter
      ensures Valid()
      ensures cmdExpr == cmd && queryColumns == old(cmd.select) && this.keyColumns == keyColumns
      ensures counter.count == old(counter.count) + 1 && alias == Some(AliasName(counter.count))
    {
      var name := counter.NextAlias();
      var exprList := cmd.select;
      var cols: seq<Option<Column>> := [];
      var i := 0;
      while i < |exprList|
        invariant 0 <= i <= |exprList| && |cols| == i
        invariant forall j :: 0 <= j < i ==> cols[j] == UpdateColumn(exprList[j])
      {
        cols := cols + [UpdateColumn(exprList[i])];
        i := i + 1;
      }
      cmdExpr := cmd;
      queryColumns := exprList;
      columns := cols;
      this.keyColumns := keyColumns;
      alias := Some(name);
    }

    /** A query can be updated exactly when key columns were declared. */
    predicate IsUpdateable()
      reads this
    {
      keyColumns.Some?
    }

    /** The first query column whose select expression equals expr, or none. */
    method FindQueryColumn(expr: ColumnExpr) returns (r: Option<nat>)
      ensures r.Some? ==> r.value < |queryColumns| && queryColumns[r.value] == expr
      ensures r.Some? ==> forall j :: 0 <= j < r.value ==> queryColumns[j] != expr
      ensures r.None? ==> expr !in queryColumns
    {
      var i := 0;
      while i < |queryColumns|
        invariant 0 <= i <= |queryColumns|
        invariant forall j :: 0 <= j < i ==> queryColumns[j] != expr
      {
        if queryColumns[i] == expr {
          return Some(i);
        }
        i := i + 1;
      }
      return None;
    }

    /** The first query column whose name matches, under the given (case-insensitive) name comparison, or none. */
    method FindQueryColumnByName(name: string, sameName: (string, string) -> bool) returns (r: Option<nat>)
      ensures r.Some? ==> r.value < |queryColumns| && sameName(ExprName(queryColumns[r.value]), name)
      ensures r.Some? ==> forall j :: 0 <= j < r.value ==> !sameName(ExprName(queryColumns[j]), name)
      ensures r.None? ==> forall j :: 0 <= j < |queryColumns| ==> !sameName(ExprName(queryColumns[j]), name)
    {
      var i := 0;
      while i < |queryColumns|
        invariant 0 <= i <= |queryColumns|
        invariant forall j :: 0 <= j < i ==> !sameName(ExprName(queryColumns[j]), name)
      {
        if sameName(ExprName(queryColumns[i]), name) {
          return Some(i);
        }
        i := i + 1;
      }
      return None;
    }

    /** The key of a record bound to this query is its row-set data; any other record is an invalid argument. */
    function GetRecordKey(rec: Record?): (r: Result<Option<seq<Value>>, Error>)
      reads this, rec
      ensures r.Success? <==> rec != null && rec.rowSet == this
      ensures r.Success? ==> r.value == rec.rowSetData
      ensures r.Failure? ==> r.error == InvalidArgument
    {
      if rec == null || rec.rowSet != this then Failure(InvalidArgument) else Success(rec.rowSetData)
    }

    /** Appends the parenthesised select, followed by the alias when the context asks for it and there is one. */
    method AddSql(buf: StringBuilder, selectSql: string, context: bv64)
      modifies buf
      ensures buf.text == old(buf.text) + "(" + selectSql + ")" +
                          (if context & CTX_ALIAS != 0 && alias.Some? then " " + alias.value else "")
    {
      buf.Append("(");
      buf.Append(selectSql);
      buf.Append(")");
      if context & CTX_ALIAS != 0 && alias.Some? {
        buf.Append(" ");
        buf.Append(alias.value);
      }
    }

    /** Inserting into a query is not implemented. */
    method CreateRecord(rec: Record?, conn: Option<Connection>) returns (r: Outcome<Error>)
      ensures r == Fail(NotImplemented)
    {
      return Fail(NotImplemented);
    }

    /** Deleting through a query is not implemented. */
    method DeleteRecord(keys: Option<seq<Value>>, conn: Option<Connection>) returns (r: Outcome<Error>)
      ensures r == Fail(NotImplemented)
    {
      return Fail(NotImplemented);
    }

    /**
     * initRecord: every field becomes NoValue; then, when key values are
     * given, each key column that is one of the rowset's columns receives its
     * key value in that column's field.
     */
    method InitRecord(rec: Record, keyValues: Option<seq<Value>>) returns (res: Outcome<Error>)
      requires Valid() && rec.Valid() && rec.fields.Length == |columns|
      modifies rec.fields
      ensures rec.fields[..] == InitSpec(columns, keyColumns, keyValues).fields
      ensures res == InitSpec(columns, keyColumns, keyValues).outcome
    {
      var fields := rec.fields;
      var i := 0;
      while i < fields.Length
        invariant 0 <= i <= fields.Length
        invariant forall j :: 0 <= j < i ==> fields[j] == NoValue
      {
        fields[i] := NoValue;
        i := i + 1;
      }
      assert fields[..] == Blank(|columns|);
      if keyValues.None? {
        return Pass;
      }
      if keyColumns.None? {
        return Fail(NullReference);
      }
      var keyCols := keyColumns.value;
      var vals := keyValues.value;
      var k := 0;
      while k < |keyCols|
        invariant 0 <= k <= |keyCols|
        invariant PlaceKeys(columns, keyCols, vals, Blank(|columns|), k) == Placement(fields[..], Pass)
      {
        var idx := IndexOf(columns, Some(keyCols[k]));
        if idx.Some? {
          if k >= |vals| {
            PlaceKeysSticks(columns, keyCols, vals, Blank(|columns|), k + 1, |keyCols|);
            return Fail(IndexOutOfRange);
          }
          fields[idx.value] := vals[k];
        }
        k := k + 1;
      }
      return Pass;
    }

    /**
     * readRecord: after the argument and key checks, adds one equality per key
     * column to the wrapped command's own WHERE list, selects, and on success
     * loads the row and stores the key as the record's row-set data.
     */
    method ReadRecord(rec: Record?, key: Option<seq<Value>>, conn: Option<Connection>, db: Database)
      returns (res: Outcome<Error>)
      requires Valid()
      requires rec != null ==> rec.Valid() && rec.fields.Length == |columns|
      requires forall w :: db.select(w).Some? ==> |db.select(w).value| == |columns|
      modifies cmdExpr, if rec != null then {rec, rec.fields} else {}
      ensures rec != null ==> rec.Valid() && rec.rowSet == old(rec.rowSet)
      ensures var run := ReadSpec(old(Def()), db, old(StateOf(rec)), key, conn);
              cmdExpr.where == run.where && StateOf(rec) == run.record && res == run.outcome
      ensures cmdExpr.select == old(cmdExpr.select) && cmdExpr.joins == old(cmdExpr.joins)
    {
      if conn.None? || rec == null {
        return Fail(InvalidArgument);
      }
      if key.None? {
        return Fail(InvalidKey);
      }
      if keyColumns.None? {
        return Fail(NullReference);
      }
      var keyCols := keyColumns.value;
      var k := key.value;
      if |keyCols| != |k| {
        return Fail(InvalidKey);
      }
      if !cmdExpr.isCommand {
        return Fail(NotSupported);
      }
      var i := 0;
      while i < |keyCols|
        invariant 0 <= i <= |keyCols|
        invariant cmdExpr.where == old(cmdExpr.where) + KeyPredicates(keyCols, k, db.prepared, i)
        invariant cmdExpr.select == old(cmdExpr.select) && cmdExpr.joins == old(cmdExpr.joins)
        modifies cmdExpr
      {
        cmdExpr.where := cmdExpr.where + [Is(keyCols[i], Bind(db.prepared, k[i]))];
        i := i + 1;
      }
      var row := db.select(cmdExpr.where);
      if row.None? {
        return Fail(RecordNotFound);
      }
      var fields := rec.fields;
      forall j | 0 <= j < fields.Length {
        fields[j] := row.value[j];
      }
      assert fields[..] == row.value;
      rec.UpdateComplete(key);
      return Pass;
    }

    /** The per-table SET lists of the record's modified fields (the loop that fills the command map). */
    method CollectUpdates(rec: Record, validate: (Column, Value) -> bool)
      returns (res: Result<map<TableId, seq<Assignment>>, Error>)
      requires rec.Valid() && rec.fields.Length == |columns|
      ensures res == CollectSets(columns, rec.State(), validate, |columns|)
    {
      var updCmds: map<TableId, seq<Assignment>> := map[];
      var i := 0;
      while i < |columns|
        invariant 0 <= i <= |columns|
        invariant CollectSets(columns, rec.State(), validate, i) == Success(updCmds)
      {
        match columns[i] {
          case None =>
          case Some(col) =>
            var updCmd := SetsFor(updCmds, col.table);
            if rec.modified[i] {
              if !validate(col, rec.fields[i]) {
                CollectSetsSticks(columns, rec.State(), validate, i + 1, |columns|);
                return Failure(InvalidValue(col));
              }
              updCmd := updCmd + [Assign(col, rec.fields[i])];
            }
            updCmds := updCmds[col.table := updCmd];
        }
        i := i + 1;
      }
      return Success(updCmds);
    }

    /**
     * addJoinRestriction: restricts updCol by the stored key value of its
     * counterpart keyCol when that is a declared key and the record has
     * row-set data, otherwise by the record's unmodified field for updCol or
     * keyCol. Success(false) when no value was found or the field was modified.
     */
    method AddJoinRestriction(wheres: seq<Predicate>, updCol: Column, keyCol: Option<Column>, keyCols: seq<Column>, rec: Record)
      returns (wheres': seq<Predicate>, res: Result<bool, Error>)
      requires rec.Valid() && rec.fields.Length == |columns|
      ensures match JoinValue(columns, keyCols, rec.State(), updCol, keyCol)
              case Failure(e) => res == Failure(e) && wheres' == wheres
              case Success(None) => res == Success(false) && wheres' == wheres
              case Success(Some(v)) => res == Success(true) && wheres' == wheres + [Is(updCol, Lit(v))]
    {
      var rowSetData := rec.rowSetData;
      var i := 0;
      while i < |keyCols|
        invariant 0 <= i <= |keyCols|
        invariant forall j :: 0 <= j < i ==> !(Some(keyCols[j]) == keyCol && rowSetData.Some?)
      {
        if Some(keyCols[i]) == keyCol && rowSetData.Some? {
          assert IndexOf(keyCols, keyCol.value) == Some(i);
          if i >= |rowSetData.value| {
            return wheres, Failure(IndexOutOfRange);
          }
          return wheres + [Is(updCol, Lit(rowSetData.value[i]))], Success(true);
        }
        i := i + 1;
      }
      var index := IndexOf(columns, Some(updCol));
      if index.None? {
        index := IndexOf(columns, keyCol);
      }
      if index.Some? {
        if rec.modified[index.value] {
          return wheres, Success(false);
        }
        return wheres + [Is(updCol, Lit(rec.fields[index.value]))], Success(true);
      }
      return wheres, Success(false);
    }

    /** The join restrictions for table t, from the wrapped command's joins in order. */
    method JoinRestrictionsFor(rec: Record, keyCols: seq<Column>, s: Schema, t: TableId)
      returns (res: Result<seq<Predicate>, Error>)
      requires rec.Valid() && rec.fields.Length == |columns|
      ensures res == JoinRestrictions(Def(), keyCols, s, t, rec.State(), |cmdExpr.joins|)
    {
      var joins := cmdExpr.joins;
      var wheres: seq<Predicate> := [];
      var i := 0;
      while i < |joins|
        invariant 0 <= i <= |joins|
        invariant JoinRestrictions(Def(), keyCols, s, t, rec.State(), i) == Success(wheres)
      {
        match joins[i] {
          case OtherJoin(_) =>
          case ColumnJoin(le, re) =>
            var left := UpdateColumn(le);
            var right := UpdateColumn(re);
            if left.None? {
              JoinRestrictionsSticks(Def(), keyCols, s, t, rec.State(), i + 1, |joins|);
              return Failure(NullReference);
            }
            if left.value.table == t && IsKeyColumn(s, t, left.value) {
              var found;
              wheres, found := AddJoinRestriction(wheres, left.value, right, keyCols, rec);
              if found != Success(true) {
                JoinRestrictionsSticks(Def(), keyCols, s, t, rec.State(), i + 1, |joins|);
                return if found.Failure? then Failure(found.error) else Failure(ItemNotFound(left.value));
              }
            }
            if right.None? {
              JoinRestrictionsSticks(Def(), keyCols, s, t, rec.State(), i + 1, |joins|);
              return Failure(NullReference);
            }
            if right.value.table == t && IsKeyColumn(s, t, right.value) {
              var found;
              wheres, found := AddJoinRestriction(wheres, right.value, left, keyCols, rec);
              if found != Success(true) {
                JoinRestrictionsSticks(Def(), keyCols, s, t, rec.State(), i + 1, |joins|);
                return if found.Failure? then Failure(found.error) else Failure(ItemNotFound(right.value));
              }
            }
        }
        i := i + 1;
      }
      return Success(wheres);
    }

    /** The wrapped command's column comparisons on table t; any other kind of predicate is not supported. */
    method CarryWhere(t: TableId) returns (res: Result<seq<Predicate>, Error>)
      ensures res == CarriedWhere(cmdExpr.where, t, |cmdExpr.where|)
    {
      var where := cmdExpr.where;
      var wheres: seq<Predicate> := [];
      var i := 0;
      while i < |where|
        invariant 0 <= i <= |where|
        invariant CarriedWhere(where, t, i) == Success(wheres)
      {
        var cmp := where[i];
        if cmp.ColCompare? {
          var col := UpdateColumn(cmp.expr);
          if col.Some? && col.value.table == t {
            // a parameter operand is re-bound to a new parameter of the update command with the same value
            wheres := wheres + [ColCompare(cmp.expr, cmp.op, cmp.rhs)];
          }
        } else {
          CarriedWhereSticks(where, t, i + 1, |where|);
          return Failure(NotSupported);
        }
        i := i + 1;
      }
      return Success(wheres);
    }

    /** One equality per declared key column owned by table t, on the stored key tuple. */
    method KeyRestrictionsFor(keyCols: seq<Column>, keys: Option<seq<Value>>, prepared: bool, t: TableId)
      returns (res: Result<seq<Predicate>, Error>)
      ensures res == KeyRestrictions(keyCols, keys, prepared, t, |keyCols|)
    {
      var wheres: seq<Predicate> := [];
      var i := 0;
      while i < |keyCols|
        invariant 0 <= i <= |keyCols|
        invariant KeyRestrictions(keyCols, keys, prepared, t, i) == Success(wheres)
      {
        if keyCols[i].table == t {
          if keys.None? || i >= |keys.value| {
            KeyRestrictionsSticks(keyCols, keys, prepared, t, i + 1, |keyCols|);
            return Failure(if keys.None? then NullReference else IndexOutOfRange);
          }
          var value := Bind(prepared, keys.value[i]);
          wheres := wheres + [Is(keyCols[i], value)];
        }
        i := i + 1;
      }
      return Success(wheres);
    }

    /**
     * The body of the loop over the command map for one table: build the
     * restrictions and the timestamp entries, execute, and read the affected
     * row count.
     */
    method UpdateTable(rec: Record, keyCols: seq<Column>, s: Schema, db: Database,
                       sets: map<TableId, seq<Assignment>>, t: TableId, executed: seq<Statement>, ghost r0: RecordState)
      returns (executed': seq<Statement>, progress: Progress)
      requires Valid() && rec.Valid() && rec.fields.Length == |columns| && Fits(columns, r0)
      requires rec.modified == r0.modified && rec.rowSetData == r0.rowSetData
      modifies rec.fields
      ensures RunState(executed', rec.fields[..], progress)
              == TableStep(Def(), keyCols, s, db, r0, sets, RunState(executed, old(rec.fields[..]), Going), t)
    {
      assert rec.State() == r0.(fields := rec.fields[..]);
      var upd := SetsFor(sets, t);
      if upd == [] {
        return executed, Going;
      }
      var joins := JoinRestrictionsFor(rec, keyCols, s, t);
      if joins.Failure? {
        return executed, Failed(joins.error);
      }
      var carried := CarryWhere(t);
      if carried.Failure? {
        return executed, Failed(carried.error);
      }
      var keyPreds := KeyRestrictionsFor(keyCols, rec.rowSetData, db.prepared, t);
      if keyPreds.Failure? {
        return executed, Failed(keyPreds.error);
      }
      var wheres := joins.value + carried.value + keyPreds.value;
      ghost var baseSets, baseWheres := upd, wheres;
      var timestampIndex: Option<nat> := None;
      match TimestampColumn(s, t) {
        case None =>
        case Some(tsColumn) =>
          var index := IndexOf(columns, Some(tsColumn));
          if index.Some? {
            var lastTS := rec.fields[index.value];
            if !IsEmpty(lastTS) {
              wheres := wheres + [Is(tsColumn, Bind(db.prepared, lastTS))];
            }
            upd := upd + [Assign(tsColumn, db.now)];
            timestampIndex := index;
          } else {
            upd := upd + [Assign(tsColumn, Sysdate)];
          }
      }
      ghost var ts := TimestampPart(s, db, columns, rec.fields[..], t);
      assert upd == baseSets + ts.sets && wheres == baseWheres + ts.wheres && timestampIndex == ts.writeBack;
      var stmt := Statement(t, upd, wheres);
      assert TableStatement(Def(), keyCols, s, db, r0.(fields := old(rec.fields[..])), t, SetsFor(sets, t))
             == Success(Planned(stmt, timestampIndex));
      var affected := db.execute(stmt);
      executed' := executed + [stmt];
      if affected <= 0 {
        if affected == 0 {
          return executed', Failed(RecordUpdateFailed);
        }
        // db.rollback(conn), then return without completing the record
        return executed', Aborted;
      } else if affected > 1 {
        return executed', Failed(RecordUpdateInvalid);
      }
      if timestampIndex.Some? {
        rec.fields[timestampIndex.value] := db.now;
      }
      return executed', Going;
    }

    /**
     * The loop over the command map in iteration order `order`: one update
     * statement per table, stopping at the first table that does not succeed.
     */
    method RunUpdates(rec: Record, keyCols: seq<Column>, s: Schema, db: Database,
                      sets: map<TableId, seq<Assignment>>, order: seq<TableId>, ghost r0: RecordState)
      returns (executed: seq<Statement>, progress: Progress)
      requires Valid() && rec.Valid() && rec.fields.Length == |columns| && Fits(columns, r0)
      requires rec.State() == r0
      modifies rec.fields
      ensures rec.Valid() && rec.modified == r0.modified && rec.rowSetData == r0.rowSetData
      ensures RunState(executed, rec.fields[..], progress) == RunTables(Def(), keyCols, s, db, r0, sets, order, |order|)
    {
      executed := [];
      var k := 0;
      while k < |order|
        invariant 0 <= k <= |order|
        invariant rec.Valid() && rec.modified == r0.modified && rec.rowSetData == r0.rowSetData
        invariant RunTables(Def(), keyCols, s, db, r0, sets, order, k) == RunState(executed, rec.fields[..], Going)
      {
        executed, progress := UpdateTable(rec, keyCols, s, db, sets, order[k], executed, r0);
        if progress != Going {
          RunTablesSticks(Def(), keyCols, s, db, r0, sets, order, k + 1, |order|);
          return;
        }
        k := k + 1;
      }
      progress := Going;
    }

    /**
     * updateRecord: after the updateability, argument and modification
     * checks, groups the modified fields by owning table and runs one update
     * statement per table in the command map's iteration order `order`;
     * completes the record once every table succeeded.
     */
    method UpdateRecord(rec: Record?, conn: Option<Connection>, s: Schema, db: Database, order: seq<TableId>)
      returns (executed: seq<Statement>, outcome: Result<UpdateStatus, Error>)
      requires Valid()
      requires rec != null ==> rec.Valid() && rec.fields.Length == |columns|
      requires NoDup(order) && forall t :: t in order <==> t in Tables(columns)
      modifies if rec != null then {rec, rec.fields} else {}
      ensures rec != null ==> rec.Valid() && rec.rowSet == old(rec.rowSet)
      ensures var run := UpdateSpec(Def(), s, db, old(StateOf(rec)), conn, order);
              executed == run.executed && outcome == run.outcome && StateOf(rec) == run.record
    {
      if !IsUpdateable() {
        return [], Failure(NotSupported);
      }
      if rec == null {
        return [], Failure(InvalidArgument);
      }
      if conn.None? {
        return [], Failure(InvalidArgument);
      }
      if !AnyModified(rec.State()) {
        return [], Success(NothingToUpdate);
      }
      // keyColumns is non-null here, so the source's NoPrimaryKey check cannot fail
      var keyCols := keyColumns.value;
      var updCmds := CollectUpdates(rec, s.validate);
      if updCmds.Failure? {
        return [], Failure(updCmds.error);
      }
      if !cmdExpr.isCommand {
        return [], Failure(NotSupported);
      }
      var keys := rec.rowSetData;
      ghost var r0 := rec.State();
      var progress;
      executed, progress := RunUpdates(rec, keyCols, s, db, updCmds.value, order, r0);
      if progress != Going {
        return executed, if progress.Aborted? then Success(RolledBack) else Failure(progress.error);
      }
      rec.UpdateComplete(keys);
      return executed, Success(Completed);
    }
  }
}
