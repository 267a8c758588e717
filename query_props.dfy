/**
 * What updateRecord, readRecord and initRecord guarantee, stated over the
 * functions of QuerySpec that the DBQuery methods are proved to compute.
 */
module QueryProps {
  import opened Outcomes
  import opened DBSchema
  import opened Records
  import opened QuerySpec
  import Query

  // ---------------------------------------------------------------------
  // Grouping the modified fields by table
  // ---------------------------------------------------------------------

  /** The tables owning the first n non-null columns. */
  function TablesUpTo(cols: seq<Option<Column>>, n: nat): set<TableId>
    requires n <= |cols|
  {
    set i | 0 <= i < n && cols[i].Some? :: cols[i].value.table
  }

  /** Reference definition: the assignments of the modified fields among the first n columns that table t owns, in column order. */
  function ColumnAssignments(cols: seq<Option<Column>>, r: RecordState, t: TableId, n: nat): seq<Assignment>
    requires n <= |cols| && Fits(cols, r)
  {
    if n == 0 then []
    else if cols[n - 1].Some? && cols[n - 1].value.table == t && r.modified[n - 1] then
      ColumnAssignments(cols, r, t, n - 1) + [Assign(cols[n - 1].value, r.fields[n - 1])]
    else ColumnAssignments(cols, r, t, n - 1)
  }

  /** Field i is modified but its column rejects the value. */
  predicate Invalid(cols: seq<Option<Column>>, r: RecordState, validate: (Column, Value) -> bool, i: nat)
    requires i < |cols| && Fits(cols, r)
  {
    cols[i].Some? && r.modified[i] && !validate(cols[i].value, r.fields[i])
  }

  /**
   * Collecting the SET lists fails exactly when some modified field is
   * invalid, with InvalidValue of the first such column; otherwise there is
   * one entry per owning table, holding that table's modified fields in
   * column order.
   */
  lemma {:induction false} CollectSetsGroups(cols: seq<Option<Column>>, r: RecordState, validate: (Column, Value) -> bool, n: nat)
    requires n <= |cols| && Fits(cols, r)
    ensures CollectSets(cols, r, validate, n).Failure? <==> exists i :: 0 <= i < n && Invalid(cols, r, validate, i)
    ensures CollectSets(cols, r, validate, n).Failure? ==>
            exists i :: 0 <= i < n && Invalid(cols, r, validate, i) && CollectSets(cols, r, validate, n).error == InvalidValue(cols[i].value) &&
                        forall j :: 0 <= j < i ==> !Invalid(cols, r, validate, j)
    ensures CollectSets(cols, r, validate, n).Success? ==>
            CollectSets(cols, r, validate, n).value.Keys == TablesUpTo(cols, n) &&
            forall t :: SetsFor(CollectSets(cols, r, validate, n).value, t) == ColumnAssignments(cols, r, t, n)
  {
    if n > 0 {
      CollectSetsGroups(cols, r, validate, n - 1);
      var prev := CollectSets(cols, r, validate, n - 1);
      if prev.Success? {
        var acc := prev.value;
        if cols[n - 1].Some? {
          var c := cols[n - 1].value;
          assert TablesUpTo(cols, n) == TablesUpTo(cols, n - 1) + {c.table} by {
            forall x | x in TablesUpTo(cols, n) ensures x in TablesUpTo(cols, n - 1) + {c.table} {
              var i :| 0 <= i < n && cols[i].Some? && cols[i].value.table == x;
              if i < n - 1 { assert x in TablesUpTo(cols, n - 1); }
            }
          }
          if Invalid(cols, r, validate, n - 1) {
            assert CollectSets(cols, r, validate, n).error == InvalidValue(cols[n - 1].value);
          }
        } else {
          assert TablesUpTo(cols, n) == TablesUpTo(cols, n - 1) by {
            forall x | x in TablesUpTo(cols, n) ensures x in TablesUpTo(cols, n - 1) {
              var i :| 0 <= i < n && cols[i].Some? && cols[i].value.table == x;
              assert i < n - 1;
            }
          }
        }
      }
    }
  }

  /** An assignment is in table t's list exactly when it assigns a modified field of a column of t its value. */
  lemma {:induction false} ColumnAssignmentsMembers(cols: seq<Option<Column>>, r: RecordState, t: TableId, n: nat, a: Assignment)
    requires n <= |cols| && Fits(cols, r)
    ensures a in ColumnAssignments(cols, r, t, n) <==>
            exists i :: 0 <= i < n && cols[i].Some? && cols[i].value.table == t && r.modified[i] && a == Assign(cols[i].value, r.fields[i])
  {
    if n > 0 {
      ColumnAssignmentsMembers(cols, r, t, n - 1, a);
    }
  }

  /**
   * A modified field is written to its table's command whatever the column's
   * read-only flag says: grouping never looks at the flag.
   */
  lemma ReadOnlyColumnsWritten(cols: seq<Option<Column>>, r: RecordState, validate: (Column, Value) -> bool, i: nat)
    requires Fits(cols, r) && i < |cols| && cols[i].Some? && cols[i].value.readOnly && r.modified[i]
    requires CollectSets(cols, r, validate, |cols|).Success?
    ensures Assign(cols[i].value, r.fields[i]) in SetsFor(CollectSets(cols, r, validate, |cols|).value, cols[i].value.table)
  {
    CollectSetsGroups(cols, r, validate, |cols|);
    ColumnAssignmentsMembers(cols, r, cols[i].value.table, |cols|, Assign(cols[i].value, r.fields[i]));
  }

  // ---------------------------------------------------------------------
  // Which exceptions updateRecord can throw
  // ---------------------------------------------------------------------

  /**
   * The timestamp entries of a table's statement: nothing without a
   * timestamp column; SET ts = SYSDATE when the column is not in the rowset;
   * otherwise, with i its first position, SET ts = the new timestamp, a WHERE
   * ts = the field's old value unless that value is empty, and the new
   * timestamp written back into field i.
   */
  lemma TimestampPartMeaning(s: Schema, db: Database, cols: seq<Option<Column>>, fields: seq<Value>, t: TableId)
    requires |fields| == |cols|
    ensures TimestampColumn(s, t).None? ==> TimestampPart(s, db, cols, fields, t) == TimestampPlan([], [], None)
    ensures TimestampColumn(s, t).Some? && TimestampColumn(s, t) !in cols ==>
            TimestampPart(s, db, cols, fields, t) == TimestampPlan([Assign(TimestampColumn(s, t).value, Sysdate)], [], None)
    ensures forall i :: 0 <= i < |cols| && TimestampColumn(s, t).Some? && cols[i] == TimestampColumn(s, t) &&
                        (forall j :: 0 <= j < i ==> cols[j] != TimestampColumn(s, t)) ==>
              TimestampPart(s, db, cols, fields, t).sets == [Assign(TimestampColumn(s, t).value, db.now)] &&
              TimestampPart(s, db, cols, fields, t).writeBack == Some(i) &&
              (IsEmpty(fields[i]) ==> TimestampPart(s, db, cols, fields, t).wheres == []) &&
              (!IsEmpty(fields[i]) ==>
                 TimestampPart(s, db, cols, fields, t).wheres == [Is(TimestampColumn(s, t).value, Bind(db.prepared, fields[i]))])
  {
    forall i | 0 <= i < |cols| && TimestampColumn(s, t).Some? && cols[i] == TimestampColumn(s, t) &&
               (forall j :: 0 <= j < i ==> cols[j] != TimestampColumn(s, t))
      ensures IndexOf(cols, TimestampColumn(s, t)) == Some(i)
    {
      IndexOfFirst(cols, TimestampColumn(s, t), i);
    }
  }

  /**
   * A table's statement, when built, updates table t; its SET list is the
   * table's assignments followed by the timestamp SET, and its WHERE list is
   * the join restrictions, then the carried WHERE predicates, then the key
   * restrictions, then the old-timestamp check. Building fails exactly when
   * one of the three restriction steps fails, with the error of the first.
   */
  lemma TableStatementMeaning(q: QueryDef, keyCols: seq<Column>, s: Schema, db: Database, r: RecordState,
                              t: TableId, sets: seq<Assignment>)
    requires Fits(q.columns, r)
    ensures TableStatement(q, keyCols, s, db, r, t, sets).Success? <==>
            JoinRestrictions(q, keyCols, s, t, r, |q.joins|).Success? && CarriedWhere(q.where, t, |q.where|).Success? &&
            KeyRestrictions(keyCols, r.rowSetData, db.prepared, t, |keyCols|).Success?
    ensures JoinRestrictions(q, keyCols, s, t, r, |q.joins|).Failure? ==>
            TableStatement(q, keyCols, s, db, r, t, sets) == Failure(JoinRestrictions(q, keyCols, s, t, r, |q.joins|).error)
    ensures JoinRestrictions(q, keyCols, s, t, r, |q.joins|).Success? && CarriedWhere(q.where, t, |q.where|).Failure? ==>
            TableStatement(q, keyCols, s, db, r, t, sets) == Failure(CarriedWhere(q.where, t, |q.where|).error)
    ensures JoinRestrictions(q, keyCols, s, t, r, |q.joins|).Success? && CarriedWhere(q.where, t, |q.where|).Success? &&
            KeyRestrictions(keyCols, r.rowSetData, db.prepared, t, |keyCols|).Failure? ==>
            TableStatement(q, keyCols, s, db, r, t, sets) == Failure(KeyRestrictions(keyCols, r.rowSetData, db.prepared, t, |keyCols|).error)
    ensures TableStatement(q, keyCols, s, db, r, t, sets).Success? ==>
            var p := TableStatement(q, keyCols, s, db, r, t, sets).value;
            var ts := TimestampPart(s, db, q.columns, r.fields, t);
            p.stmt.table == t && p.stmt.sets == sets + ts.sets && p.writeBack == ts.writeBack &&
            p.stmt.wheres == JoinRestrictions(q, keyCols, s, t, r, |q.joins|).value + CarriedWhere(q.where, t, |q.where|).value +
                             KeyRestrictions(keyCols, r.rowSetData, db.prepared, t, |keyCols|).value + ts.wheres
  {
  }

  /**
   * isUpdateable only asks for a non-null key column array, so an empty one
   * passes. Such a query adds no key restriction at all: each statement is
   * restricted only by the joins, the carried WHERE predicates and the old
   * timestamp.
   */
  lemma EmptyKeysUnrestricted(q: QueryDef, s: Schema, db: Database, r: RecordState, t: TableId, sets: seq<Assignment>)
    requires Fits(q.columns, r)
    ensures TableStatement(q, [], s, db, r, t, sets).Success? <==>
            JoinRestrictions(q, [], s, t, r, |q.joins|).Success? && CarriedWhere(q.where, t, |q.where|).Success?
    ensures TableStatement(q, [], s, db, r, t, sets).Success? ==>
            TableStatement(q, [], s, db, r, t, sets).value.stmt.wheres ==
              JoinRestrictions(q, [], s, t, r, |q.joins|).value + CarriedWhere(q.where, t, |q.where|).value +
              TimestampPart(s, db, q.columns, r.fields, t).wheres
  {
    TableStatementMeaning(q, [], s, db, r, t, sets);
    if TableStatement(q, [], s, db, r, t, sets).Success? {
      var jc := JoinRestrictions(q, [], s, t, r, |q.joins|).value + CarriedWhere(q.where, t, |q.where|).value;
      assert jc + [] == jc;
    }
  }

  /** The exceptions building one table's statement can throw. */
  predicate BuildError(e: Error)
  {
    e == NullReference || e == IndexOutOfRange || e.ItemNotFound? || e == NotSupported
  }

  lemma {:induction false} JoinRestrictionsErrors(q: QueryDef, keyCols: seq<Column>, s: Schema, t: TableId, r: RecordState, n: nat)
    requires n <= |q.joins| && Fits(q.columns, r)
    ensures JoinRestrictions(q, keyCols, s, t, r, n).Failure? ==>
            var e := JoinRestrictions(q, keyCols, s, t, r, n).error; e == NullReference || e == IndexOutOfRange || e.ItemNotFound?
  {
    if n > 0 {
      JoinRestrictionsErrors(q, keyCols, s, t, r, n - 1);
    }
  }

  lemma {:induction false} CarriedWhereErrors(preds: seq<Predicate>, t: TableId, n: nat)
    requires n <= |preds|
    ensures CarriedWhere(preds, t, n).Failure? ==> CarriedWhere(preds, t, n).error == NotSupported
  {
    if n > 0 {
      CarriedWhereErrors(preds, t, n - 1);
    }
  }

  lemma {:induction false} KeyRestrictionsErrors(keyCols: seq<Column>, keys: Option<seq<Value>>, prepared: bool, t: TableId, n: nat)
    requires n <= |keyCols|
    ensures KeyRestrictions(keyCols, keys, prepared, t, n).Failure? ==>
            KeyRestrictions(keyCols, keys, prepared, t, n).error in {NullReference, IndexOutOfRange}
  {
    if n > 0 {
      KeyRestrictionsErrors(keyCols, keys, prepared, t, n - 1);
    }
  }

  lemma TableStatementErrors(q: QueryDef, keyCols: seq<Column>, s: Schema, db: Database, r: RecordState, t: TableId, sets: seq<Assignment>)
    requires Fits(q.columns, r)
    ensures TableStatement(q, keyCols, s, db, r, t, sets).Failure? ==> BuildError(TableStatement(q, keyCols, s, db, r, t, sets).error)
  {
    JoinRestrictionsErrors(q, keyCols, s, t, r, |q.joins|);
    CarriedWhereErrors(q.where, t, |q.where|);
    KeyRestrictionsErrors(keyCols, r.rowSetData, db.prepared, t, |keyCols|);
  }

  lemma {:induction false} CollectSetsErrors(cols: seq<Option<Column>>, r: RecordState, validate: (Column, Value) -> bool, n: nat)
    requires n <= |cols| && Fits(cols, r)
    ensures CollectSets(cols, r, validate, n).Failure? ==> CollectSets(cols, r, validate, n).error.InvalidValue?
  {
    if n > 0 {
      CollectSetsErrors(cols, r, validate, n - 1);
    }
  }

  /** The outcome of each execution, as the affected-row count reports it. */
  function Counts(db: Database, stmts: seq<Statement>): (r: seq<int>)
    ensures |r| == |stmts| && forall i :: 0 <= i < |stmts| ==> r[i] == db.execute(stmts[i])
  {
    seq(|stmts|, i requires 0 <= i < |stmts| => db.execute(stmts[i]))
  }

  /** Every statement before the last updated exactly one row. */
  predicate AllButLastOne(c: seq<int>)
  {
    forall i :: 0 <= i < |c| - 1 ==> c[i] == 1
  }

  /** The run's progress as the affected-row counts explain it. */
  predicate Explains(c: seq<int>, p: Progress)
  {
    match p
    case Going => forall i :: 0 <= i < |c| ==> c[i] == 1
    case Aborted => |c| > 0 && AllButLastOne(c) && c[|c| - 1] < 0
    case Failed(e) =>
      if e == RecordUpdateFailed then |c| > 0 && AllButLastOne(c) && c[|c| - 1] == 0
      else if e == RecordUpdateInvalid then |c| > 0 && AllButLastOne(c) && c[|c| - 1] > 1
      else BuildError(e) && forall i :: 0 <= i < |c| ==> c[i] == 1
  }

  /** One table's step executes at most one statement: one for that table, starting with its non-empty SET list. */
  lemma TableStepExecutes(q: QueryDef, keyCols: seq<Column>, s: Schema, db: Database, r0: RecordState,
                          sets: map<TableId, seq<Assignment>>, st: RunState, t: TableId)
    requires Fits(q.columns, r0) && |st.fields| == |q.columns|
    ensures var res := TableStep(q, keyCols, s, db, r0, sets, st, t);
            res.executed == st.executed ||
            (|res.executed| == |st.executed| + 1 && res.executed[..|st.executed|] == st.executed &&
             res.executed[|st.executed|].table == t &&
             SetsFor(sets, t) != [] && SetsFor(sets, t) <= res.executed[|st.executed|].sets)
    ensures var res := TableStep(q, keyCols, s, db, r0, sets, st, t);
            res.executed != st.executed ==>
              TableStatement(q, keyCols, s, db, r0.(fields := st.fields), t, SetsFor(sets, t)).Success? &&
              res.executed[|st.executed|] == TableStatement(q, keyCols, s, db, r0.(fields := st.fields), t, SetsFor(sets, t)).value.stmt
  {
    var ss := SetsFor(sets, t);
    if ss != [] {
      var res := TableStatement(q, keyCols, s, db, r0.(fields := st.fields), t, ss);
      if res.Success? {
        var stmt := res.value.stmt;
        assert stmt.table == t && ss <= stmt.sets;
        assert TableStep(q, keyCols, s, db, r0, sets, st, t).executed == st.executed + [stmt];
      }
    }
  }

  /** The statement updates one of the visited tables and starts with that table's non-empty SET list. */
  predicate ExecutedFor(sets: map<TableId, seq<Assignment>>, visited: seq<TableId>, stmt: Statement)
  {
    stmt.table in visited && SetsFor(sets, stmt.table) != [] && SetsFor(sets, stmt.table) <= stmt.sets
  }

  predicate AllExecutedFor(sets: map<TableId, seq<Assignment>>, visited: seq<TableId>, executed: seq<Statement>)
  {
    forall i :: 0 <= i < |executed| ==> ExecutedFor(sets, visited, executed[i])
  }

  /** No table is updated twice. */
  predicate DistinctTables(executed: seq<Statement>)
  {
    forall i, j :: 0 <= i < j < |executed| ==> executed[i].table != executed[j].table
  }

  /** Every field is the record's own or the new update timestamp. */
  predicate OwnOrNow(base: seq<Value>, fields: seq<Value>, now: Value)
  {
    |fields| == |base| && forall j :: 0 <= j < |fields| ==> fields[j] == base[j] || fields[j] == now
  }

  /**
   * Every statement the run executes belongs to one of the tables visited and
   * starts with that table's SET list, which is not empty.
   */
  lemma {:induction false} RunTablesStatements(q: QueryDef, keyCols: seq<Column>, s: Schema, db: Database, r0: RecordState,
                                               sets: map<TableId, seq<Assignment>>, order: seq<TableId>, n: nat)
    requires n <= |order| && Fits(q.columns, r0)
    ensures AllExecutedFor(sets, order[..n], RunTables(q, keyCols, s, db, r0, sets, order, n).executed)
  {
    if n > 0 {
      RunTablesStatements(q, keyCols, s, db, r0, sets, order, n - 1);
      var st := RunTables(q, keyCols, s, db, r0, sets, order, n - 1);
      if st.progress == Going {
        TableStepExecutes(q, keyCols, s, db, r0, sets, st, order[n - 1]);
        var st' := RunTables(q, keyCols, s, db, r0, sets, order, n);
        assert order[..n] == order[..n - 1] + [order[n - 1]];
        forall i | 0 <= i < |st'.executed|
          ensures ExecutedFor(sets, order[..n], st'.executed[i])
        {
          if i < |st.executed| {
            assert st'.executed[i] == st.executed[i];
            assert ExecutedFor(sets, order[..n - 1], st.executed[i]);
          }
        }
      }
    }
  }

  lemma NotInPrefix<T>(s: seq<T>, n: nat)
    requires n < |s| && NoDup(s)
    ensures s[n] !in s[..n]
  {
  }

  lemma AppendDistinct(executed: seq<Statement>, stmt: Statement)
    requires DistinctTables(executed)
    requires forall i :: 0 <= i < |executed| ==> executed[i].table != stmt.table
    ensures DistinctTables(executed + [stmt])
  {
    var e := executed + [stmt];
    forall i, j | 0 <= i < j < |e| ensures e[i].table != e[j].table {
      assert e[i] == executed[i];
      if j < |executed| {
        assert e[j] == executed[j];
      }
    }
  }

  /** When the order has no repeats, no table is updated twice. */
  lemma {:induction false} RunTablesDistinct(q: QueryDef, keyCols: seq<Column>, s: Schema, db: Database, r0: RecordState,
                                             sets: map<TableId, seq<Assignment>>, order: seq<TableId>, n: nat)
    requires n <= |order| && Fits(q.columns, r0) && NoDup(order)
    ensures DistinctTables(RunTables(q, keyCols, s, db, r0, sets, order, n).executed)
  {
    if n > 0 {
      RunTablesDistinct(q, keyCols, s, db, r0, sets, order, n - 1);
      RunTablesStatements(q, keyCols, s, db, r0, sets, order, n - 1);
      var st := RunTables(q, keyCols, s, db, r0, sets, order, n - 1);
      if st.progress == Going {
        var t := order[n - 1];
        TableStepExecutes(q, keyCols, s, db, r0, sets, st, t);
        var st' := TableStep(q, keyCols, s, db, r0, sets, st, t);
        if st'.executed != st.executed {
          NotInPrefix(order, n - 1);
          forall i | 0 <= i < |st.executed| ensures st.executed[i].table != t {
            assert ExecutedFor(sets, order[..n - 1], st.executed[i]);
          }
          assert st'.executed == st.executed + [st'.executed[|st.executed|]];
          AppendDistinct(st.executed, st'.executed[|st.executed|]);
        }
      }
    }
  }

  /**
   * The statement is the one built for its table from the record with some
   * fields: the record's own values, or new timestamps written back by
   * earlier tables of the run.
   */
  ghost predicate Built(q: QueryDef, keyCols: seq<Column>, s: Schema, db: Database, r0: RecordState,
                  sets: map<TableId, seq<Assignment>>, stmt: Statement)
    requires Fits(q.columns, r0)
  {
    exists f :: OwnOrNow(r0.fields, f, db.now) &&
                TableStatement(q, keyCols, s, db, r0.(fields := f), stmt.table, SetsFor(sets, stmt.table)).Success? &&
                TableStatement(q, keyCols, s, db, r0.(fields := f), stmt.table, SetsFor(sets, stmt.table)).value.stmt == stmt
  }

  ghost predicate AllBuilt(q: QueryDef, keyCols: seq<Column>, s: Schema, db: Database, r0: RecordState,
                     sets: map<TableId, seq<Assignment>>, executed: seq<Statement>)
    requires Fits(q.columns, r0)
  {
    forall k :: 0 <= k < |executed| ==> Built(q, keyCols, s, db, r0, sets, executed[k])
  }

  /** Every statement the run executes is the one TableStatement builds for its table. */
  lemma {:induction false} RunTablesBuilt(q: QueryDef, keyCols: seq<Column>, s: Schema, db: Database, r0: RecordState,
                                          sets: map<TableId, seq<Assignment>>, order: seq<TableId>, n: nat)
    requires n <= |order| && Fits(q.columns, r0)
    ensures AllBuilt(q, keyCols, s, db, r0, sets, RunTables(q, keyCols, s, db, r0, sets, order, n).executed)
  {
    if n > 0 {
      RunTablesBuilt(q, keyCols, s, db, r0, sets, order, n - 1);
      var st := RunTables(q, keyCols, s, db, r0, sets, order, n - 1);
      if st.progress == Going {
        var t := order[n - 1];
        RunTablesFields(q, keyCols, s, db, r0, sets, order, n - 1);
        TableStepExecutes(q, keyCols, s, db, r0, sets, st, t);
        var st' := TableStep(q, keyCols, s, db, r0, sets, st, t);
        if st'.executed != st.executed {
          var stmt := st'.executed[|st.executed|];
          assert OwnOrNow(r0.fields, st.fields, db.now);
          assert Built(q, keyCols, s, db, r0, sets, stmt);
          forall k | 0 <= k < |st'.executed| ensures Built(q, keyCols, s, db, r0, sets, st'.executed[k]) {
            if k < |st.executed| {
              assert st'.executed[k] == st.executed[k];
            }
          }
        }
      }
    }
  }

  /** One table's step keeps the counts explaining the progress. */
  lemma TableStepCounts(q: QueryDef, keyCols: seq<Column>, s: Schema, db: Database, r0: RecordState,
                        sets: map<TableId, seq<Assignment>>, st: RunState, t: TableId)
    requires Fits(q.columns, r0) && |st.fields| == |q.columns| && st.progress == Going
    requires Explains(Counts(db, st.executed), Going)
    ensures Explains(Counts(db, TableStep(q, keyCols, s, db, r0, sets, st, t).executed),
                     TableStep(q, keyCols, s, db, r0, sets, st, t).progress)
  {
    var ss := SetsFor(sets, t);
    if ss != [] {
      var r := r0.(fields := st.fields);
      var res := TableStatement(q, keyCols, s, db, r, t, ss);
      if res.Failure? {
        TableStatementErrors(q, keyCols, s, db, r, t, ss);
      } else {
        var stmt := res.value.stmt;
        assert Counts(db, st.executed + [stmt]) == Counts(db, st.executed) + [db.execute(stmt)];
      }
    }
  }

  /** The run's progress is what the affected-row counts of its statements say. */
  lemma {:induction false} RunTablesCounts(q: QueryDef, keyCols: seq<Column>, s: Schema, db: Database, r0: RecordState,
                                           sets: map<TableId, seq<Assignment>>, order: seq<TableId>, n: nat)
    requires n <= |order| && Fits(q.columns, r0)
    ensures Explains(Counts(db, RunTables(q, keyCols, s, db, r0, sets, order, n).executed),
                     RunTables(q, keyCols, s, db, r0, sets, order, n).progress)
  {
    if n > 0 {
      RunTablesCounts(q, keyCols, s, db, r0, sets, order, n - 1);
      var st := RunTables(q, keyCols, s, db, r0, sets, order, n - 1);
      if st.progress == Going {
        TableStepCounts(q, keyCols, s, db, r0, sets, st, order[n - 1]);
      }
    }
  }

  /** Every field is either the record's own or the new update timestamp. */
  lemma {:induction false} RunTablesFields(q: QueryDef, keyCols: seq<Column>, s: Schema, db: Database, r0: RecordState,
                                           sets: map<TableId, seq<Assignment>>, order: seq<TableId>, n: nat)
    requires n <= |order| && Fits(q.columns, r0)
    ensures OwnOrNow(r0.fields, RunTables(q, keyCols, s, db, r0, sets, order, n).fields, db.now)
  {
    if n > 0 {
      RunTablesFields(q, keyCols, s, db, r0, sets, order, n - 1);
    }
  }

  /**
   * A step that kept going: a table without SET entries changes nothing;
   * otherwise one statement for the table was appended and the timestamp
   * field, if projected, holds the new timestamp.
   */
  predicate WentOn(st: RunState, res: RunState, t: TableId, ss: seq<Assignment>, writeBack: Option<nat>, now: Value)
  {
    st.progress == Going &&
    if ss == [] then res == st
    else
      |res.executed| == |st.executed| + 1 && res.executed[..|st.executed|] == st.executed &&
      res.executed[|st.executed|].table == t && ss <= res.executed[|st.executed|].sets &&
      res.fields == if writeBack.Some? && writeBack.value < |st.fields| then st.fields[writeBack.value := now] else st.fields
  }

  lemma TableStepGoing(q: QueryDef, keyCols: seq<Column>, s: Schema, db: Database, r0: RecordState,
                       sets: map<TableId, seq<Assignment>>, st: RunState, t: TableId)
    requires Fits(q.columns, r0) && |st.fields| == |q.columns| && st.progress == Going
    requires TableStep(q, keyCols, s, db, r0, sets, st, t).progress == Going
    ensures WentOn(st, TableStep(q, keyCols, s, db, r0, sets, st, t), t, SetsFor(sets, t),
                   TimestampPart(s, db, q.columns, st.fields, t).writeBack, db.now)
  {
    var ss := SetsFor(sets, t);
    if ss != [] {
      var res := TableStatement(q, keyCols, s, db, r0.(fields := st.fields), t, ss);
      assert res.Success?;
      assert res.value.writeBack == TimestampPart(s, db, q.columns, st.fields, t).writeBack;
    }
  }

  /** Table t has nothing to update, or some executed statement updates it, starting with its SET list. */
  predicate Covered(sets: map<TableId, seq<Assignment>>, t: TableId, executed: seq<Statement>)
  {
    SetsFor(sets, t) == [] || exists i :: 0 <= i < |executed| && executed[i].table == t && SetsFor(sets, t) <= executed[i].sets
  }

  /** A run that went through every table executed one statement for each table with something to update. */
  lemma {:induction false} RunTablesCovers(q: QueryDef, keyCols: seq<Column>, s: Schema, db: Database, r0: RecordState,
                                           sets: map<TableId, seq<Assignment>>, order: seq<TableId>, n: nat)
    requires n <= |order| && Fits(q.columns, r0)
    ensures RunTables(q, keyCols, s, db, r0, sets, order, n).progress == Going ==>
            forall k :: 0 <= k < n ==> Covered(sets, order[k], RunTables(q, keyCols, s, db, r0, sets, order, n).executed)
  {
    if n > 0 {
      RunTablesCovers(q, keyCols, s, db, r0, sets, order, n - 1);
      var st := RunTables(q, keyCols, s, db, r0, sets, order, n - 1);
      var st' := RunTables(q, keyCols, s, db, r0, sets, order, n);
      if st'.progress == Going {
        assert st.progress == Going;
        var t := order[n - 1];
        TableStepGoing(q, keyCols, s, db, r0, sets, st, t);
        forall k | 0 <= k < n ensures Covered(sets, order[k], st'.executed) {
          if k < n - 1 && SetsFor(sets, order[k]) != [] {
            var i :| 0 <= i < |st.executed| && st.executed[i].table == order[k] && SetsFor(sets, order[k]) <= st.executed[i].sets;
            assert st'.executed[i] == st.executed[i];
          } else if k == n - 1 && SetsFor(sets, t) != [] {
            assert st'.executed[|st.executed|].table == t;
          }
        }
      }
    }
  }

  /** Table t was updated, and its timestamp column is the rowset's column i. */
  predicate StampedAt(s: Schema, cols: seq<Option<Column>>, sets: map<TableId, seq<Assignment>>, t: TableId, i: nat)
  {
    SetsFor(sets, t) != [] && TimestampColumn(s, t).Some? && IndexOf(cols, TimestampColumn(s, t)) == Some(i)
  }

  /** A stamped table writes the new timestamp back into column i. */
  lemma StampedWriteBack(s: Schema, db: Database, cols: seq<Option<Column>>, sets: map<TableId, seq<Assignment>>,
                         fields: seq<Value>, t: TableId, i: nat)
    requires |fields| == |cols| && StampedAt(s, cols, sets, t, i)
    ensures TimestampPart(s, db, cols, fields, t).writeBack == Some(i)
  {
  }

  /** A step that kept going keeps every new timestamp already written, and writes it into the table's own timestamp field. */
  lemma TableStepStamps(q: QueryDef, keyCols: seq<Column>, s: Schema, db: Database, r0: RecordState,
                        sets: map<TableId, seq<Assignment>>, st: RunState, t: TableId)
    requires Fits(q.columns, r0) && |st.fields| == |q.columns| && st.progress == Going
    requires TableStep(q, keyCols, s, db, r0, sets, st, t).progress == Going
    ensures forall i: nat :: i < |st.fields| && (st.fields[i] == db.now || StampedAt(s, q.columns, sets, t, i)) ==>
                             TableStep(q, keyCols, s, db, r0, sets, st, t).fields[i] == db.now
  {
    TableStepGoing(q, keyCols, s, db, r0, sets, st, t);
    forall i: nat | i < |st.fields| && StampedAt(s, q.columns, sets, t, i)
      ensures TimestampPart(s, db, q.columns, st.fields, t).writeBack == Some(i)
    {
      StampedWriteBack(s, db, q.columns, sets, st.fields, t, i);
    }
  }

  /** After a run that went through every table, each projected timestamp column of an updated table holds the new timestamp. */
  lemma {:induction false} RunTablesTimestamps(q: QueryDef, keyCols: seq<Column>, s: Schema, db: Database, r0: RecordState,
                                               sets: map<TableId, seq<Assignment>>, order: seq<TableId>, n: nat)
    requires n <= |order| && Fits(q.columns, r0)
    ensures RunTables(q, keyCols, s, db, r0, sets, order, n).progress == Going ==>
            forall k, i: nat :: 0 <= k < n && StampedAt(s, q.columns, sets, order[k], i) ==>
                           RunTables(q, keyCols, s, db, r0, sets, order, n).fields[i] == db.now
  {
    if n > 0 {
      RunTablesTimestamps(q, keyCols, s, db, r0, sets, order, n - 1);
      var st := RunTables(q, keyCols, s, db, r0, sets, order, n - 1);
      var st' := RunTables(q, keyCols, s, db, r0, sets, order, n);
      if st'.progress == Going {
        assert st.progress == Going;
        assert st' == TableStep(q, keyCols, s, db, r0, sets, st, order[n - 1]);
        TableStepStamps(q, keyCols, s, db, r0, sets, st, order[n - 1]);
        forall k, i: nat | 0 <= k < n && StampedAt(s, q.columns, sets, order[k], i) ensures st'.fields[i] == db.now {
          if k < n - 1 {
            assert st.fields[i] == db.now;
          }
        }
      }
    }
  }

  /** The run's outcome as the affected-row counts explain it. */
  predicate UpdateExplained(c: seq<int>, outcome: Result<UpdateStatus, Error>)
  {
    match outcome
    case Success(NothingToUpdate) => c == []
    case Success(Completed) => forall i :: 0 <= i < |c| ==> c[i] == 1
    case Success(RolledBack) => |c| > 0 && AllButLastOne(c) && c[|c| - 1] < 0
    case Failure(e) =>
      if e == RecordUpdateFailed then |c| > 0 && AllButLastOne(c) && c[|c| - 1] == 0
      else if e == RecordUpdateInvalid then |c| > 0 && AllButLastOne(c) && c[|c| - 1] > 1
      else forall i :: 0 <= i < |c| ==> c[i] == 1
  }

  /**
   * The affected-row counts decide updateRecord's outcome: every statement of
   * a completed update changed exactly one row; a rollback follows a negative
   * count, RecordUpdateFailed a count of 0 and RecordUpdateInvalid a count
   * above 1, each on the last statement, all earlier ones having changed one
   * row; any other exception comes before its table's statement runs.
   */
  lemma UpdateCounts(q: QueryDef, s: Schema, db: Database, rec: Option<RecordState>, conn: Option<Connection>, order: seq<TableId>)
    requires rec.Some? ==> Fits(q.columns, rec.value)
    ensures UpdateExplained(Counts(db, UpdateSpec(q, s, db, rec, conn, order).executed), UpdateSpec(q, s, db, rec, conn, order).outcome)
  {
    if q.keyColumns.Some? && rec.Some? && conn.Some? && AnyModified(rec.value) {
      var r := rec.value;
      CollectSetsErrors(q.columns, r, s.validate, |q.columns|);
      var sets := CollectSets(q.columns, r, s.validate, |q.columns|);
      if sets.Success? && q.isCommand {
        RunTablesCounts(q, q.keyColumns.value, s, db, r, sets.value, order, |order|);
      }
    }
  }

  /**
   * updateRecord checks, in this order: that the query is updateable, that a
   * record and a connection were given, and that the record is modified; an
   * unmodified record returns with nothing executed and the record as it was.
   * Statements run only after every modified field validated.
   */
  lemma UpdateGuards(q: QueryDef, s: Schema, db: Database, rec: Option<RecordState>, conn: Option<Connection>, order: seq<TableId>)
    requires rec.Some? ==> Fits(q.columns, rec.value)
    ensures q.keyColumns.None? ==> UpdateSpec(q, s, db, rec, conn, order) == UpdateRun([], rec, Failure(NotSupported))
    ensures q.keyColumns.Some? && rec.None? ==> UpdateSpec(q, s, db, rec, conn, order) == UpdateRun([], rec, Failure(InvalidArgument))
    ensures q.keyColumns.Some? && rec.Some? && conn.None? ==>
            UpdateSpec(q, s, db, rec, conn, order) == UpdateRun([], rec, Failure(InvalidArgument))
    ensures q.keyColumns.Some? && rec.Some? && conn.Some? && !AnyModified(rec.value) ==>
            UpdateSpec(q, s, db, rec, conn, order) == UpdateRun([], rec, Success(NothingToUpdate))
    ensures UpdateSpec(q, s, db, rec, conn, order).executed != [] ==>
            q.keyColumns.Some? && q.isCommand && rec.Some? && conn.Some? &&
            forall i :: 0 <= i < |q.columns| ==> !Invalid(q.columns, rec.value, s.validate, i)
  {
    if rec.Some? {
      CollectSetsGroups(q.columns, rec.value, s.validate, |q.columns|);
    }
  }

  /** The statement updates its table with every modified field of that table, in column order, first. */
  predicate WritesModified(cols: seq<Option<Column>>, r: RecordState, stmt: Statement)
    requires Fits(cols, r)
  {
    ColumnAssignments(cols, r, stmt.table, |cols|) != [] && ColumnAssignments(cols, r, stmt.table, |cols|) <= stmt.sets
  }

  /**
   * Each executed statement updates a different table (the map has one
   * command per table), and starts by setting exactly that table's modified
   * fields; tables without modified fields are never executed.
   */
  lemma UpdateStatements(q: QueryDef, s: Schema, db: Database, rec: Option<RecordState>, conn: Option<Connection>, order: seq<TableId>)
    requires rec.Some? ==> Fits(q.columns, rec.value)
    requires NoDup(order)
    ensures DistinctTables(UpdateSpec(q, s, db, rec, conn, order).executed)
    ensures rec.Some? ==> forall i :: 0 <= i < |UpdateSpec(q, s, db, rec, conn, order).executed| ==>
                            WritesModified(q.columns, rec.value, UpdateSpec(q, s, db, rec, conn, order).executed[i])
  {
    if q.keyColumns.Some? && rec.Some? && conn.Some? && AnyModified(rec.value) {
      var r := rec.value;
      CollectSetsGroups(q.columns, r, s.validate, |q.columns|);
      var sets := CollectSets(q.columns, r, s.validate, |q.columns|);
      if sets.Success? && q.isCommand {
        RunTablesDistinct(q, q.keyColumns.value, s, db, r, sets.value, order, |order|);
        RunTablesStatements(q, q.keyColumns.value, s, db, r, sets.value, order, |order|);
        var executed := RunTables(q, q.keyColumns.value, s, db, r, sets.value, order, |order|).executed;
        forall i | 0 <= i < |executed| ensures WritesModified(q.columns, r, executed[i]) {
          assert ExecutedFor(sets.value, order[..|order|], executed[i]);
        }
      }
    }
  }

  /**
   * Every statement updateRecord executes is the one built for its table:
   * that table's SET list plus the timestamp, and the WHERE list of join
   * restrictions, carried conditions, key predicates and the old timestamp.
   */
  lemma UpdateStatementsBuilt(q: QueryDef, s: Schema, db: Database, rec: Option<RecordState>, conn: Option<Connection>,
                              order: seq<TableId>)
    requires rec.Some? && Fits(q.columns, rec.value)
    requires UpdateSpec(q, s, db, rec, conn, order).executed != []
    ensures q.keyColumns.Some? && CollectSets(q.columns, rec.value, s.validate, |q.columns|).Success?
    ensures AllBuilt(q, q.keyColumns.value, s, db, rec.value, CollectSets(q.columns, rec.value, s.validate, |q.columns|).value,
                     UpdateSpec(q, s, db, rec, conn, order).executed)
  {
    var r := rec.value;
    var sets := CollectSets(q.columns, r, s.validate, |q.columns|).value;
    RunTablesBuilt(q, q.keyColumns.value, s, db, r, sets, order, |order|);
  }

  /**
   * updateComplete is reached only when every table succeeded: after a
   * rollback, an exception or any guard, the returned record keeps its
   * modified flags and stored key, and each field is its own value or a
   * timestamp written back before the run stopped. A rolled-back record is
   * therefore still modified.
   */
  lemma UpdateAbortKeepsState(q: QueryDef, s: Schema, db: Database, rec: Option<RecordState>, conn: Option<Connection>,
                              order: seq<TableId>)
    requires rec.Some? && Fits(q.columns, rec.value)
    requires UpdateSpec(q, s, db, rec, conn, order).outcome != Success(Completed)
    ensures UpdateSpec(q, s, db, rec, conn, order).record.Some?
    ensures UpdateSpec(q, s, db, rec, conn, order).record.value.modified == rec.value.modified
    ensures UpdateSpec(q, s, db, rec, conn, order).record.value.rowSetData == rec.value.rowSetData
    ensures OwnOrNow(rec.value.fields, UpdateSpec(q, s, db, rec, conn, order).record.value.fields, db.now)
    ensures UpdateSpec(q, s, db, rec, conn, order).outcome == Success(RolledBack) ==>
            AnyModified(UpdateSpec(q, s, db, rec, conn, order).record.value)
  {
    var r := rec.value;
    var sets := CollectSets(q.columns, r, s.validate, |q.columns|);
    if q.keyColumns.Some? && conn.Some? && AnyModified(r) && sets.Success? && q.isCommand {
      RunTablesFields(q, q.keyColumns.value, s, db, r, sets.value, order, |order|);
    } else {
      assert OwnOrNow(r.fields, r.fields, db.now);
    }
  }

  /** A completed update is a run over every table that never stopped, followed by updateComplete. */
  lemma CompletedRun(q: QueryDef, s: Schema, db: Database, rec: Option<RecordState>, conn: Option<Connection>, order: seq<TableId>)
    requires rec.Some? && Fits(q.columns, rec.value)
    requires UpdateSpec(q, s, db, rec, conn, order).outcome == Success(Completed)
    ensures q.keyColumns.Some? && q.isCommand && CollectSets(q.columns, rec.value, s.validate, |q.columns|).Success?
    ensures RunTables(q, q.keyColumns.value, s, db, rec.value, CollectSets(q.columns, rec.value, s.validate, |q.columns|).value,
                      order, |order|).progress == Going
    ensures UpdateSpec(q, s, db, rec, conn, order).executed ==
            RunTables(q, q.keyColumns.value, s, db, rec.value, CollectSets(q.columns, rec.value, s.validate, |q.columns|).value,
                      order, |order|).executed
    ensures UpdateSpec(q, s, db, rec, conn, order).record ==
            Some(RecordState(RunTables(q, q.keyColumns.value, s, db, rec.value,
                                       CollectSets(q.columns, rec.value, s.validate, |q.columns|).value, order, |order|).fields,
                             Cleared(|q.columns|), rec.value.rowSetData))
  {
  }

  /**
   * A completed update clears every modified flag and keeps the stored key;
   * every field is the record's own or the new timestamp.
   */
  lemma UpdateCompletes(q: QueryDef, s: Schema, db: Database, rec: Option<RecordState>, conn: Option<Connection>, order: seq<TableId>)
    requires rec.Some? && Fits(q.columns, rec.value)
    requires UpdateSpec(q, s, db, rec, conn, order).outcome == Success(Completed)
    ensures UpdateSpec(q, s, db, rec, conn, order).record.Some?
    ensures !AnyModified(UpdateSpec(q, s, db, rec, conn, order).record.value)
    ensures UpdateSpec(q, s, db, rec, conn, order).record.value.rowSetData == rec.value.rowSetData
    ensures OwnOrNow(rec.value.fields, UpdateSpec(q, s, db, rec, conn, order).record.value.fields, db.now)
  {
    CompletedRun(q, s, db, rec, conn, order);
    RunTablesFields(q, q.keyColumns.value, s, db, rec.value, CollectSets(q.columns, rec.value, s.validate, |q.columns|).value,
                    order, |order|);
  }

  /**
   * When the order enumerates the tables of the rowset's columns, a completed
   * update wrote every modified field of a table column, with its value, in
   * a statement for that column's table.
   */
  lemma UpdateWritesEveryModified(q: QueryDef, s: Schema, db: Database, rec: Option<RecordState>, conn: Option<Connection>,
                                  order: seq<TableId>, i: nat)
    requires rec.Some? && Fits(q.columns, rec.value)
    requires forall t :: t in order <==> t in Tables(q.columns)
    requires UpdateSpec(q, s, db, rec, conn, order).outcome == Success(Completed)
    requires i < |q.columns| && q.columns[i].Some? && rec.value.modified[i]
    ensures exists j :: 0 <= j < |UpdateSpec(q, s, db, rec, conn, order).executed| &&
                        UpdateSpec(q, s, db, rec, conn, order).executed[j].table == q.columns[i].value.table &&
                        Assign(q.columns[i].value, rec.value.fields[i]) in UpdateSpec(q, s, db, rec, conn, order).executed[j].sets
  {
    var r := rec.value;
    CompletedRun(q, s, db, rec, conn, order);
    CollectSetsGroups(q.columns, r, s.validate, |q.columns|);
    var sets := CollectSets(q.columns, r, s.validate, |q.columns|).value;
    var st := RunTables(q, q.keyColumns.value, s, db, r, sets, order, |order|);
    RunTablesCovers(q, q.keyColumns.value, s, db, r, sets, order, |order|);
    var c := q.columns[i].value;
    ColumnAssignmentsMembers(q.columns, r, c.table, |q.columns|, Assign(c, r.fields[i]));
    assert Assign(c, r.fields[i]) in SetsFor(sets, c.table);
    assert c.table in order;
    var k :| 0 <= k < |order| && order[k] == c.table;
    assert Covered(sets, order[k], st.executed);
    var j :| 0 <= j < |st.executed| && st.executed[j].table == c.table && SetsFor(sets, c.table) <= st.executed[j].sets;
    PrefixMember(SetsFor(sets, c.table), st.executed[j].sets, Assign(c, r.fields[i]));
  }

  lemma PrefixMember<T>(p: seq<T>, s: seq<T>, x: T)
    requires p <= s && x in p
    ensures x in s
  {
    var i :| 0 <= i < |p| && p[i] == x;
    assert s[i] == x;
  }

  /**
   * After a completed update, the projected timestamp column of every updated
   * table holds the new timestamp.
   */
  lemma UpdateStampsTimestamps(q: QueryDef, s: Schema, db: Database, rec: Option<RecordState>, conn: Option<Connection>,
                               order: seq<TableId>, t: TableId, i: nat)
    requires rec.Some? && Fits(q.columns, rec.value)
    requires UpdateSpec(q, s, db, rec, conn, order).outcome == Success(Completed)
    requires t in order && StampedAt(s, q.columns, CollectSets(q.columns, rec.value, s.validate, |q.columns|).value, t, i)
    ensures i < |UpdateSpec(q, s, db, rec, conn, order).record.value.fields|
    ensures UpdateSpec(q, s, db, rec, conn, order).record.value.fields[i] == db.now
  {
    CompletedRun(q, s, db, rec, conn, order);
    RunTablesTimestamps(q, q.keyColumns.value, s, db, rec.value, CollectSets(q.columns, rec.value, s.validate, |q.columns|).value,
                        order, |order|);
    var k :| 0 <= k < |order| && order[k] == t;
  }

  /** After a completed update the record is unmodified, so updating it again executes nothing. */
  lemma UpdateIdempotent(q: QueryDef, s: Schema, db: Database, rec: Option<RecordState>, conn: Option<Connection>, order: seq<TableId>,
                         db2: Database, order2: seq<TableId>)
    requires rec.Some? && Fits(q.columns, rec.value)
    requires UpdateSpec(q, s, db, rec, conn, order).outcome == Success(Completed)
    ensures UpdateSpec(q, s, db, rec, conn, order).record.Some? &&
            Fits(q.columns, UpdateSpec(q, s, db, rec, conn, order).record.value)
    ensures UpdateSpec(q, s, db2, UpdateSpec(q, s, db, rec, conn, order).record, conn, order2) ==
            UpdateRun([], UpdateSpec(q, s, db, rec, conn, order).record, Success(NothingToUpdate))
  {
    var after := UpdateSpec(q, s, db, rec, conn, order).record;
    assert after.value.modified == Cleared(|rec.value.modified|);
  }

  /**
   * updateRecord throws only these exceptions; in particular never
   * NoPrimaryKey (its check cannot fail once the query is updateable),
   * InvalidKey or RecordNotFound.
   */
  lemma UpdateErrors(q: QueryDef, s: Schema, db: Database, rec: Option<RecordState>, conn: Option<Connection>, order: seq<TableId>)
    requires rec.Some? ==> Fits(q.columns, rec.value)
    ensures var out := UpdateSpec(q, s, db, rec, conn, order).outcome;
            out.Failure? ==> out.error in {NotSupported, InvalidArgument, RecordUpdateFailed, RecordUpdateInvalid, NullReference, IndexOutOfRange}
                             || out.error.InvalidValue? || out.error.ItemNotFound?
    ensures UpdateSpec(q, s, db, rec, conn, order).outcome != Failure(NoPrimaryKey)
  {
    if q.keyColumns.Some? && rec.Some? && conn.Some? && AnyModified(rec.value) {
      var r := rec.value;
      CollectSetsErrors(q.columns, r, s.validate, |q.columns|);
      var sets := CollectSets(q.columns, r, s.validate, |q.columns|);
      if sets.Success? && q.isCommand {
        RunTablesCounts(q, q.keyColumns.value, s, db, r, sets.value, order, |order|);
      }
    }
  }
  // ---------------------------------------------------------------------
  // The restrictions of one table's statement
  // ---------------------------------------------------------------------

  /**
   * Carrying the wrapped command's WHERE list over succeeds exactly when
   * every predicate is a column comparison, and then keeps exactly the
   * comparisons on columns of table t.
   */
  lemma {:induction false} CarriedWhereMeaning(preds: seq<Predicate>, t: TableId, n: nat)
    requires n <= |preds|
    ensures CarriedWhere(preds, t, n).Success? <==> forall i :: 0 <= i < n ==> preds[i].ColCompare?
    ensures CarriedWhere(preds, t, n).Success? ==>
            forall p :: p in CarriedWhere(preds, t, n).value <==> exists i :: 0 <= i < n && preds[i] == p && OnTable(p, t)
  {
    if n > 0 {
      CarriedWhereMeaning(preds, t, n - 1);
      if CarriedWhere(preds, t, n - 1).Failure? {
        assert !preds[n - 1].ColCompare? || exists i :: 0 <= i < n - 1 && !preds[i].ColCompare?;
      }
    }
  }

  /**
   * The key restrictions fail exactly when some key column of table t has no
   * stored key value (no key tuple at all, or one too short); otherwise they
   * are exactly one equality per key column of t on its stored key value.
   */
  lemma {:induction false} KeyRestrictionsMeaning(keyCols: seq<Column>, keys: Option<seq<Value>>, prepared: bool, t: TableId, n: nat)
    requires n <= |keyCols|
    ensures KeyRestrictions(keyCols, keys, prepared, t, n).Failure? <==>
            exists i :: 0 <= i < n && keyCols[i].table == t && (keys.None? || i >= |keys.value|)
    ensures KeyRestrictions(keyCols, keys, prepared, t, n).Success? ==>
            forall p :: p in KeyRestrictions(keyCols, keys, prepared, t, n).value <==>
                        exists i :: 0 <= i < n && keyCols[i].table == t && keys.Some? && i < |keys.value| &&
                                    p == Is(keyCols[i], Bind(prepared, keys.value[i]))
  {
    if n > 0 {
      KeyRestrictionsMeaning(keyCols, keys, prepared, t, n - 1);
    }
  }

  /** The first occurrence of x is at index i. */
  lemma IndexOfFirst<T>(s: seq<T>, x: T, i: nat)
    requires i < |s| && s[i] == x && forall j :: 0 <= j < i ==> s[j] != x
    ensures IndexOf(s, x) == Some(i)
  {
  }

  /** The counterpart is a declared key column and the record carries the stored key tuple. */
  predicate FromStoredKey(keyCols: seq<Column>, r: RecordState, keyCol: Option<Column>)
  {
    keyCol.Some? && keyCol.value in keyCols && r.rowSetData.Some?
  }

  /** The value of a found field: none when it was modified, otherwise the field. */
  function FieldValue(r: RecordState, i: nat): Result<Option<Value>, Error>
    requires i < |r.fields| && i < |r.modified|
  {
    if r.modified[i] then Success(None) else Success(Some(r.fields[i]))
  }

  /**
   * A join restriction's value, case by case: the stored key value at the
   * counterpart's position among the key columns (out of range when the
   * tuple is too short); otherwise the first field of updCol, which takes
   * priority over the counterpart's first field; none when the field found
   * was modified, or when neither column is in the rowset.
   */
  lemma JoinValueSource(cols: seq<Option<Column>>, keyCols: seq<Column>, r: RecordState, updCol: Column, keyCol: Option<Column>)
    requires Fits(cols, r)
    ensures FromStoredKey(keyCols, r, keyCol) ==>
            var k := IndexOf(keyCols, keyCol.value).value;
            keyCols[k] == keyCol.value &&
            JoinValue(cols, keyCols, r, updCol, keyCol) ==
              if k < |r.rowSetData.value| then Success(Some(r.rowSetData.value[k])) else Failure(IndexOutOfRange)
    ensures forall i :: 0 <= i < |cols| && cols[i] == Some(updCol) && (forall j :: 0 <= j < i ==> cols[j] != Some(updCol)) &&
                        !FromStoredKey(keyCols, r, keyCol) ==>
                          JoinValue(cols, keyCols, r, updCol, keyCol) == FieldValue(r, i)
    ensures forall i :: 0 <= i < |cols| && cols[i] == keyCol && (forall j :: 0 <= j < i ==> cols[j] != keyCol) &&
                        !FromStoredKey(keyCols, r, keyCol) && Some(updCol) !in cols ==>
                          JoinValue(cols, keyCols, r, updCol, keyCol) == FieldValue(r, i)
    ensures !FromStoredKey(keyCols, r, keyCol) && Some(updCol) !in cols && keyCol !in cols ==>
            JoinValue(cols, keyCols, r, updCol, keyCol) == Success(None)
  {
    forall i | 0 <= i < |cols| && cols[i] == Some(updCol) && (forall j :: 0 <= j < i ==> cols[j] != Some(updCol))
      ensures IndexOf(cols, Some(updCol)) == Some(i)
    {
      IndexOfFirst(cols, Some(updCol), i);
    }
    forall i | 0 <= i < |cols| && cols[i] == keyCol && (forall j :: 0 <= j < i ==> cols[j] != keyCol)
      ensures IndexOf(cols, keyCol) == Some(i)
    {
      IndexOfFirst(cols, keyCol, i);
    }
  }

  /**
   * The sides of a join that the update considers, in order: a column join's
   * left update column with the right one as counterpart, then the right
   * update column with the left one as counterpart. Other joins have none.
   */
  function SidesOf(j: Join): seq<(Option<Column>, Option<Column>)>
  {
    match j
    case OtherJoin(_) => []
    case ColumnJoin(le, re) => [(UpdateColumn(le), UpdateColumn(re)), (UpdateColumn(re), UpdateColumn(le))]
  }

  /** The sides of the first n joins of the wrapped command. */
  function JoinSides(joins: seq<Join>, n: nat): seq<(Option<Column>, Option<Column>)>
    requires n <= |joins|
  {
    if n == 0 then [] else JoinSides(joins, n - 1) + SidesOf(joins[n - 1])
  }

  /** The side's column belongs to table t and is one of t's key columns: it calls for a restriction. */
  predicate Restricting(s: Schema, t: TableId, side: (Option<Column>, Option<Column>))
  {
    side.0.Some? && side.0.value.table == t && IsKeyColumn(s, t, side.0.value)
  }

  /** What goes wrong on one side: a null update column, or a restricting side without a usable value. */
  function SideError(cols: seq<Option<Column>>, keyCols: seq<Column>, s: Schema, t: TableId, r: RecordState,
                     side: (Option<Column>, Option<Column>)): Option<Error>
    requires Fits(cols, r)
  {
    if side.0.None? then Some(NullReference)
    else if !Restricting(s, t, side) then None
    else match JoinValue(cols, keyCols, r, side.0.value, side.1)
      case Failure(e) => Some(e)
      case Success(None) => Some(ItemNotFound(side.0.value))
      case Success(Some(_)) => None
  }

  /** The error of the first side that has one. */
  function FirstSideError(cols: seq<Option<Column>>, keyCols: seq<Column>, s: Schema, t: TableId, r: RecordState,
                          sides: seq<(Option<Column>, Option<Column>)>): Option<Error>
    requires Fits(cols, r)
  {
    if |sides| == 0 then None
    else
      var e := FirstSideError(cols, keyCols, s, t, r, sides[..|sides| - 1]);
      if e.Some? then e else SideError(cols, keyCols, s, t, r, sides[|sides| - 1])
  }

  /** One equality updCol = value for each restricting side with a value, in order. */
  function SidePredicates(cols: seq<Option<Column>>, keyCols: seq<Column>, s: Schema, t: TableId, r: RecordState,
                          sides: seq<(Option<Column>, Option<Column>)>): seq<Predicate>
    requires Fits(cols, r)
  {
    if |sides| == 0 then []
    else
      var side := sides[|sides| - 1];
      SidePredicates(cols, keyCols, s, t, r, sides[..|sides| - 1]) +
      if Restricting(s, t, side) && JoinValue(cols, keyCols, r, side.0.value, side.1).Success? &&
         JoinValue(cols, keyCols, r, side.0.value, side.1).value.Some?
      then [Is(side.0.value, Lit(JoinValue(cols, keyCols, r, side.0.value, side.1).value.value))]
      else []
  }

  /** The join restrictions are the side predicates, unless a side has an error; then the first such error. */
  predicate JoinOutcome(cols: seq<Option<Column>>, keyCols: seq<Column>, s: Schema, t: TableId, r: RecordState,
                        sides: seq<(Option<Column>, Option<Column>)>, res: Result<seq<Predicate>, Error>)
    requires Fits(cols, r)
  {
    match FirstSideError(cols, keyCols, s, t, r, sides)
    case Some(e) => res == Failure(e)
    case None => res == Success(SidePredicates(cols, keyCols, s, t, r, sides))
  }

  /** Appending one side to sides without error. */
  lemma AppendSide(cols: seq<Option<Column>>, keyCols: seq<Column>, s: Schema, t: TableId, r: RecordState,
                   sides: seq<(Option<Column>, Option<Column>)>, side: (Option<Column>, Option<Column>))
    requires Fits(cols, r) && FirstSideError(cols, keyCols, s, t, r, sides).None?
    ensures FirstSideError(cols, keyCols, s, t, r, sides + [side]) == SideError(cols, keyCols, s, t, r, side)
    ensures SidePredicates(cols, keyCols, s, t, r, sides + [side]) ==
            SidePredicates(cols, keyCols, s, t, r, sides) +
            if Restricting(s, t, side) && JoinValue(cols, keyCols, r, side.0.value, side.1).Success? &&
               JoinValue(cols, keyCols, r, side.0.value, side.1).value.Some?
            then [Is(side.0.value, Lit(JoinValue(cols, keyCols, r, side.0.value, side.1).value.value))]
            else []
  {
    assert (sides + [side])[..|sides|] == sides;
  }

  /** Once a side has an error, further sides do not change the first error. */
  lemma AppendAfterError(cols: seq<Option<Column>>, keyCols: seq<Column>, s: Schema, t: TableId, r: RecordState,
                         sides: seq<(Option<Column>, Option<Column>)>, more: seq<(Option<Column>, Option<Column>)>)
    requires Fits(cols, r) && FirstSideError(cols, keyCols, s, t, r, sides).Some?
    ensures FirstSideError(cols, keyCols, s, t, r, sides + more) == FirstSideError(cols, keyCols, s, t, r, sides)
    decreases |more|
  {
    if |more| > 0 {
      var init := more[..|more| - 1];
      AppendAfterError(cols, keyCols, s, t, r, sides, init);
      var all := sides + more;
      assert all[..|all| - 1] == sides + init;
      assert FirstSideError(cols, keyCols, s, t, r, all[..|all| - 1]).Some?;
    } else {
      assert sides + more == sides;
    }
  }

  /** One side, as JoinSide processes it, agrees with the side's error and predicate. */
  lemma JoinSideMeaning(cols: seq<Option<Column>>, keyCols: seq<Column>, s: Schema, t: TableId, r: RecordState,
                        sides: seq<(Option<Column>, Option<Column>)>, acc: seq<Predicate>, updCol: Column, counterpart: Option<Column>)
    requires Fits(cols, r) && JoinOutcome(cols, keyCols, s, t, r, sides, Success(acc))
    ensures JoinOutcome(cols, keyCols, s, t, r, sides + [(Some(updCol), counterpart)],
                        JoinSide(cols, keyCols, s, t, r, acc, updCol, counterpart))
  {
    var side := (Some(updCol), counterpart);
    assert FirstSideError(cols, keyCols, s, t, r, sides).None? && acc == SidePredicates(cols, keyCols, s, t, r, sides);
    AppendSide(cols, keyCols, s, t, r, sides, side);
    if Restricting(s, t, side) {
      var jv := JoinValue(cols, keyCols, r, updCol, counterpart);
      if jv.Success? && jv.value.Some? {
        assert JoinSide(cols, keyCols, s, t, r, acc, updCol, counterpart) == Success(acc + [Is(updCol, Lit(jv.value.value))]);
      }
    } else {
      assert JoinSide(cols, keyCols, s, t, r, acc, updCol, counterpart) == Success(acc);
      assert acc + [] == acc;
    }
  }

  /** The first error is the error of the first side that has one; no error exactly when no side has one. */
  lemma {:induction false} FirstSideErrorAt(cols: seq<Option<Column>>, keyCols: seq<Column>, s: Schema, t: TableId, r: RecordState,
                                            sides: seq<(Option<Column>, Option<Column>)>)
    requires Fits(cols, r)
    ensures FirstSideError(cols, keyCols, s, t, r, sides).None? <==>
            forall k :: 0 <= k < |sides| ==> SideError(cols, keyCols, s, t, r, sides[k]).None?
    ensures FirstSideError(cols, keyCols, s, t, r, sides).Some? ==>
            exists k :: 0 <= k < |sides| && SideError(cols, keyCols, s, t, r, sides[k]) == FirstSideError(cols, keyCols, s, t, r, sides) &&
                        forall j :: 0 <= j < k ==> SideError(cols, keyCols, s, t, r, sides[j]).None?
  {
    if |sides| > 0 {
      var init := sides[..|sides| - 1];
      FirstSideErrorAt(cols, keyCols, s, t, r, init);
      assert forall k :: 0 <= k < |init| ==> init[k] == sides[k];
      var e := FirstSideError(cols, keyCols, s, t, r, init);
      if e.Some? {
        var k :| 0 <= k < |init| && SideError(cols, keyCols, s, t, r, init[k]) == e &&
                 forall j :: 0 <= j < k ==> SideError(cols, keyCols, s, t, r, init[j]).None?;
        assert SideError(cols, keyCols, s, t, r, sides[k]) == e;
      }
    }
  }

  /** A side reports ItemNotFound(c) exactly when its column c calls for a restriction and JoinValue finds no value. */
  lemma SideItemNotFound(cols: seq<Option<Column>>, keyCols: seq<Column>, s: Schema, t: TableId, r: RecordState,
                         side: (Option<Column>, Option<Column>), c: Column)
    requires Fits(cols, r)
    ensures SideError(cols, keyCols, s, t, r, side) == Some(ItemNotFound(c)) <==>
            side.0 == Some(c) && Restricting(s, t, side) && JoinValue(cols, keyCols, r, c, side.1) == Success(None)
  {
  }

  /** The side restricts its update column and JoinValue gives a value; p is that equality. */
  predicate SideGives(cols: seq<Option<Column>>, keyCols: seq<Column>, s: Schema, t: TableId, r: RecordState,
                      side: (Option<Column>, Option<Column>), p: Predicate)
    requires Fits(cols, r)
  {
    Restricting(s, t, side) && JoinValue(cols, keyCols, r, side.0.value, side.1).Success? &&
    JoinValue(cols, keyCols, r, side.0.value, side.1).value.Some? &&
    p == Is(side.0.value, Lit(JoinValue(cols, keyCols, r, side.0.value, side.1).value.value))
  }

  lemma {:induction false} SidePredicatesGives(cols: seq<Option<Column>>, keyCols: seq<Column>, s: Schema, t: TableId, r: RecordState,
                                               sides: seq<(Option<Column>, Option<Column>)>, p: Predicate)
    requires Fits(cols, r)
    ensures p in SidePredicates(cols, keyCols, s, t, r, sides) <==>
            exists k :: 0 <= k < |sides| && SideGives(cols, keyCols, s, t, r, sides[k], p)
  {
    if |sides| > 0 {
      var init := sides[..|sides| - 1];
      var side := sides[|sides| - 1];
      SidePredicatesGives(cols, keyCols, s, t, r, init, p);
      assert forall k :: 0 <= k < |init| ==> init[k] == sides[k];
      assert p in SidePredicates(cols, keyCols, s, t, r, sides) <==>
             p in SidePredicates(cols, keyCols, s, t, r, init) || SideGives(cols, keyCols, s, t, r, side, p);
      if p in SidePredicates(cols, keyCols, s, t, r, init) {
        var k :| 0 <= k < |init| && SideGives(cols, keyCols, s, t, r, init[k], p);
        assert sides[k] == init[k];
      } else if SideGives(cols, keyCols, s, t, r, side, p) {
        assert sides[|sides| - 1] == side;
      }
    }
  }

  /** Without errors, the side predicates are exactly updCol = value for the restricting sides. */
  lemma SidePredicatesMembers(cols: seq<Option<Column>>, keyCols: seq<Column>, s: Schema, t: TableId, r: RecordState,
                              sides: seq<(Option<Column>, Option<Column>)>, p: Predicate)
    requires Fits(cols, r)
    ensures p in SidePredicates(cols, keyCols, s, t, r, sides) <==>
            exists k, v :: 0 <= k < |sides| && Restricting(s, t, sides[k]) &&
                           JoinValue(cols, keyCols, r, sides[k].0.value, sides[k].1) == Success(Some(v)) &&
                           p == Is(sides[k].0.value, Lit(v))
  {
    SidePredicatesGives(cols, keyCols, s, t, r, sides, p);
    if p in SidePredicates(cols, keyCols, s, t, r, sides) {
      var k :| 0 <= k < |sides| && SideGives(cols, keyCols, s, t, r, sides[k], p);
      var v := JoinValue(cols, keyCols, r, sides[k].0.value, sides[k].1).value.value;
      assert Restricting(s, t, sides[k]) && JoinValue(cols, keyCols, r, sides[k].0.value, sides[k].1) == Success(Some(v)) &&
             p == Is(sides[k].0.value, Lit(v));
    } else if exists k, v :: 0 <= k < |sides| && Restricting(s, t, sides[k]) &&
                             JoinValue(cols, keyCols, r, sides[k].0.value, sides[k].1) == Success(Some(v)) &&
                             p == Is(sides[k].0.value, Lit(v)) {
      var k, v :| 0 <= k < |sides| && Restricting(s, t, sides[k]) &&
                  JoinValue(cols, keyCols, r, sides[k].0.value, sides[k].1) == Success(Some(v)) &&
                  p == Is(sides[k].0.value, Lit(v));
      assert SideGives(cols, keyCols, s, t, r, sides[k], p);
    }
  }

  /**
   * The join restrictions for table t: the join sides are considered in
   * order, skipping joins that are not column joins; each side whose update
   * column is a key column of t adds updCol = its JoinValue; the first side
   * with a null update column, a failing JoinValue or no value (ItemNotFound
   * of that column) decides the error.
   */
  lemma {:induction false} JoinRestrictionsMeaning(q: QueryDef, keyCols: seq<Column>, s: Schema, t: TableId, r: RecordState, n: nat)
    requires n <= |q.joins| && Fits(q.columns, r)
    ensures JoinOutcome(q.columns, keyCols, s, t, r, JoinSides(q.joins, n), JoinRestrictions(q, keyCols, s, t, r, n))
  {
    if n > 0 {
      JoinRestrictionsMeaning(q, keyCols, s, t, r, n - 1);
      var prev := JoinSides(q.joins, n - 1);
      var cols := q.columns;
      var prevRes := JoinRestrictions(q, keyCols, s, t, r, n - 1);
      var j := q.joins[n - 1];
      if prevRes.Failure? {
        AppendAfterError(cols, keyCols, s, t, r, prev, SidesOf(j));
      } else if j.ColumnJoin? {
        var lc, rc := UpdateColumn(j.left), UpdateColumn(j.right);
        assert JoinSides(q.joins, n) == (prev + [(lc, rc)]) + [(rc, lc)];
        if lc.None? {
          AppendSide(cols, keyCols, s, t, r, prev, (lc, rc));
          AppendAfterError(cols, keyCols, s, t, r, prev + [(lc, rc)], [(rc, lc)]);
        } else {
          JoinSideMeaning(cols, keyCols, s, t, r, prev, prevRes.value, lc.value, rc);
          var mid := JoinSide(cols, keyCols, s, t, r, prevRes.value, lc.value, rc);
          if mid.Failure? {
            AppendAfterError(cols, keyCols, s, t, r, prev + [(lc, rc)], [(rc, lc)]);
          } else if rc.None? {
            AppendSide(cols, keyCols, s, t, r, prev + [(lc, rc)], (rc, lc));
          } else {
            JoinSideMeaning(cols, keyCols, s, t, r, prev + [(lc, rc)], mid.value, rc.value, lc);
          }
        }
      } else {
        assert JoinSides(q.joins, n) == prev;
      }
    }
  }

  /** Every side before k is error-free, and side k restricts c, for which JoinValue finds no value. */
  predicate NotFoundAt(cols: seq<Option<Column>>, keyCols: seq<Column>, s: Schema, t: TableId, r: RecordState,
                       sides: seq<(Option<Column>, Option<Column>)>, k: int, c: Column)
    requires Fits(cols, r)
  {
    0 <= k < |sides| && (forall j :: 0 <= j < k ==> SideError(cols, keyCols, s, t, r, sides[j]).None?) &&
    sides[k].0 == Some(c) && Restricting(s, t, sides[k]) && JoinValue(cols, keyCols, r, c, sides[k].1) == Success(None)
  }

  lemma FirstSideNotFound(cols: seq<Option<Column>>, keyCols: seq<Column>, s: Schema, t: TableId, r: RecordState,
                          sides: seq<(Option<Column>, Option<Column>)>, c: Column)
    requires Fits(cols, r)
    ensures FirstSideError(cols, keyCols, s, t, r, sides) == Some(ItemNotFound(c)) <==>
            exists k :: NotFoundAt(cols, keyCols, s, t, r, sides, k, c)
  {
    FirstSideErrorAt(cols, keyCols, s, t, r, sides);
    var e := FirstSideError(cols, keyCols, s, t, r, sides);
    if exists k :: NotFoundAt(cols, keyCols, s, t, r, sides, k, c) {
      var k :| NotFoundAt(cols, keyCols, s, t, r, sides, k, c);
      SideItemNotFound(cols, keyCols, s, t, r, sides[k], c);
      var k' :| 0 <= k' < |sides| && SideError(cols, keyCols, s, t, r, sides[k']) == e &&
                forall j :: 0 <= j < k' ==> SideError(cols, keyCols, s, t, r, sides[j]).None?;
      assert k' == k;
    }
    if e == Some(ItemNotFound(c)) {
      var k :| 0 <= k < |sides| && SideError(cols, keyCols, s, t, r, sides[k]) == e &&
               forall j :: 0 <= j < k ==> SideError(cols, keyCols, s, t, r, sides[j]).None?;
      SideItemNotFound(cols, keyCols, s, t, r, sides[k], c);
      assert NotFoundAt(cols, keyCols, s, t, r, sides, k, c);
    }
  }

  /**
   * Join handling throws ItemNotFound(c) exactly when the first side with an
   * error is one whose column c is a key column of t and for which
   * addJoinRestriction finds no value.
   */
  lemma JoinRestrictionsItemNotFound(q: QueryDef, keyCols: seq<Column>, s: Schema, t: TableId, r: RecordState, c: Column)
    requires Fits(q.columns, r)
    ensures JoinRestrictions(q, keyCols, s, t, r, |q.joins|) == Failure(ItemNotFound(c)) <==>
            exists k :: NotFoundAt(q.columns, keyCols, s, t, r, JoinSides(q.joins, |q.joins|), k, c)
  {
    var sides := JoinSides(q.joins, |q.joins|);
    JoinRestrictionsMeaning(q, keyCols, s, t, r, |q.joins|);
    FirstSideNotFound(q.columns, keyCols, s, t, r, sides, c);
    var res := JoinRestrictions(q, keyCols, s, t, r, |q.joins|);
    var e := FirstSideError(q.columns, keyCols, s, t, r, sides);
    if e.Some? {
      assert res == Failure(e.value);
    } else {
      assert res.Success?;
    }
    assert res == Failure(ItemNotFound(c)) <==> e == Some(ItemNotFound(c));
    assert res == Failure(ItemNotFound(c)) ==> exists k :: NotFoundAt(q.columns, keyCols, s, t, r, JoinSides(q.joins, |q.joins|), k, c);
    assert (exists k :: NotFoundAt(q.columns, keyCols, s, t, r, JoinSides(q.joins, |q.joins|), k, c)) ==> res == Failure(ItemNotFound(c));
  }

  // ---------------------------------------------------------------------
  // readRecord
  // ---------------------------------------------------------------------

  /** The i-th key predicate restricts the i-th key column to the i-th key value. */
  lemma {:induction false} KeyPredicatesAt(keyCols: seq<Column>, key: seq<Value>, prepared: bool, n: nat)
    requires n <= |keyCols| && n <= |key|
    ensures forall i :: 0 <= i < n ==> KeyPredicates(keyCols, key, prepared, n)[i] == Is(keyCols[i], Bind(prepared, key[i]))
  {
    if n > 0 {
      KeyPredicatesAt(keyCols, key, prepared, n - 1);
    }
  }

  /**
   * readRecord's checks: InvalidArgument without a connection or a record,
   * InvalidKey without a key or with one of the wrong length; after any
   * check fails neither the WHERE list nor the record changes.
   */
  lemma ReadGuards(q: QueryDef, db: Database, rec: Option<RecordState>, key: Option<seq<Value>>, conn: Option<Connection>)
    ensures conn.None? || rec.None? ==> ReadSpec(q, db, rec, key, conn) == ReadRun(q.where, rec, Fail(InvalidArgument))
    ensures conn.Some? && rec.Some? && (key.None? || (q.keyColumns.Some? && |q.keyColumns.value| != |key.value|)) ==>
            ReadSpec(q, db, rec, key, conn) == ReadRun(q.where, rec, Fail(InvalidKey))
    ensures ReadSpec(q, db, rec, key, conn).outcome != Pass && ReadSpec(q, db, rec, key, conn).outcome != Fail(RecordNotFound) ==>
            ReadSpec(q, db, rec, key, conn) == ReadRun(q.where, rec, ReadSpec(q, db, rec, key, conn).outcome)
  {
  }

  /**
   * Once past the checks, readRecord adds to the wrapped command's WHERE list
   * exactly one predicate per key column, keyColumns[i] = key[i], and keeps
   * them there even when no row is found; on success the record holds the
   * row, is unmodified and stores the key; otherwise it is unchanged.
   */
  lemma ReadAddsKeyPredicates(q: QueryDef, db: Database, rec: Option<RecordState>, key: Option<seq<Value>>, conn: Option<Connection>)
    requires ReadSpec(q, db, rec, key, conn).outcome in {Pass, Fail(RecordNotFound)}
    ensures q.keyColumns.Some? && key.Some? && |q.keyColumns.value| == |key.value|
    ensures |ReadSpec(q, db, rec, key, conn).where| == |q.where| + |q.keyColumns.value|
    ensures ReadSpec(q, db, rec, key, conn).where[..|q.where|] == q.where
    ensures forall i :: 0 <= i < |q.keyColumns.value| ==>
              ReadSpec(q, db, rec, key, conn).where[|q.where| + i] == Is(q.keyColumns.value[i], Bind(db.prepared, key.value[i]))
    ensures ReadSpec(q, db, rec, key, conn).outcome == Pass <==> db.select(ReadSpec(q, db, rec, key, conn).where).Some?
    ensures ReadSpec(q, db, rec, key, conn).outcome == Pass ==>
            ReadSpec(q, db, rec, key, conn).record ==
            Some(RecordState(db.select(ReadSpec(q, db, rec, key, conn).where).value,
                             Cleared(|db.select(ReadSpec(q, db, rec, key, conn).where).value|), key))
    ensures ReadSpec(q, db, rec, key, conn).outcome == Fail(RecordNotFound) ==> ReadSpec(q, db, rec, key, conn).record == rec
  {
    var keyCols := q.keyColumns.value;
    KeyPredicatesAt(keyCols, key.value, db.prepared, |keyCols|);
    var w := q.where + KeyPredicates(keyCols, key.value, db.prepared, |key.value|);
    assert ReadSpec(q, db, rec, key, conn).where == w;
    forall i | 0 <= i < |keyCols| ensures w[|q.where| + i] == Is(keyCols[i], Bind(db.prepared, key.value[i])) {
      assert w[|q.where| + i] == KeyPredicates(keyCols, key.value, db.prepared, |key.value|)[i];
    }
  }

  /**
   * readRecord extends the wrapped command itself. Under this model's
   * reading of DBCommand.where as appending, a second read selects with the
   * key predicates of both reads.
   */
  lemma ReadAccumulates(q: QueryDef, db: Database, rec: Option<RecordState>, key: Option<seq<Value>>, conn: Option<Connection>,
                        db2: Database, rec2: Option<RecordState>, key2: Option<seq<Value>>)
    requires ReadSpec(q, db, rec, key, conn).outcome in {Pass, Fail(RecordNotFound)}
    requires rec2.Some? && key2.Some? && |key2.value| == |key.value|
    ensures |ReadSpec(q.(where := ReadSpec(q, db, rec, key, conn).where), db2, rec2, key2, conn).where| ==
            |q.where| + 2 * |q.keyColumns.value|
    ensures ReadSpec(q.(where := ReadSpec(q, db, rec, key, conn).where), db2, rec2, key2, conn).where[..|q.where|] == q.where
  {
    ReadAddsKeyPredicates(q, db, rec, key, conn);
    var q2 := q.(where := ReadSpec(q, db, rec, key, conn).where);
    var run2 := ReadSpec(q2, db2, rec2, key2, conn);
    assert run2.outcome in {Pass, Fail(RecordNotFound)};
    ReadAddsKeyPredicates(q2, db2, rec2, key2, conn);
    assert run2.where[..|q.where|] == run2.where[..|q2.where|][..|q.where|];
  }

  // ---------------------------------------------------------------------
  // initRecord
  // ---------------------------------------------------------------------

  /** Field i is not the first occurrence of any of the first n key columns. */
  predicate NoKeyAt(cols: seq<Option<Column>>, keyCols: seq<Column>, n: nat, i: nat)
    requires n <= |keyCols|
  {
    forall j :: 0 <= j < n ==> IndexOf(cols, Some(keyCols[j])) != Some(i)
  }

  /**
   * When placement passes, each of the first n key columns that is a rowset
   * column has a key value, and its (first) field holds that value.
   */
  lemma {:induction false} PlaceKeysAt(cols: seq<Option<Column>>, keyCols: seq<Column>, vals: seq<Value>, base: seq<Value>, n: nat)
    requires n <= |keyCols| && |base| == |cols| && NoDup(keyCols)
    requires PlaceKeys(cols, keyCols, vals, base, n).outcome == Pass
    ensures forall j :: 0 <= j < n && Some(keyCols[j]) in cols ==>
              j < |vals| && PlaceKeys(cols, keyCols, vals, base, n).fields[IndexOf(cols, Some(keyCols[j])).value] == vals[j]
  {
    if n > 0 {
      assert PlaceKeys(cols, keyCols, vals, base, n - 1).outcome == Pass;
      PlaceKeysAt(cols, keyCols, vals, base, n - 1);
      var p' := PlaceKeys(cols, keyCols, vals, base, n);
      forall j | 0 <= j < n && Some(keyCols[j]) in cols
        ensures j < |vals| && p'.fields[IndexOf(cols, Some(keyCols[j])).value] == vals[j]
      {
        if j < n - 1 && Some(keyCols[n - 1]) in cols {
          assert keyCols[j] != keyCols[n - 1];
          assert IndexOf(cols, Some(keyCols[j])) != IndexOf(cols, Some(keyCols[n - 1]));
        }
      }
    }
  }

  /** A field that is no key column's keeps its base value. */
  lemma {:induction false} PlaceKeysKeeps(cols: seq<Option<Column>>, keyCols: seq<Column>, vals: seq<Value>, base: seq<Value>, n: nat)
    requires n <= |keyCols| && |base| == |cols|
    ensures forall i :: 0 <= i < |cols| && NoKeyAt(cols, keyCols, n, i) ==> PlaceKeys(cols, keyCols, vals, base, n).fields[i] == base[i]
  {
    if n > 0 {
      PlaceKeysKeeps(cols, keyCols, vals, base, n - 1);
      var p' := PlaceKeys(cols, keyCols, vals, base, n);
      forall i | 0 <= i < |cols| && NoKeyAt(cols, keyCols, n, i) ensures p'.fields[i] == base[i] {
        assert NoKeyAt(cols, keyCols, n - 1, i);
        assert IndexOf(cols, Some(keyCols[n - 1])) != Some(i);
      }
    }
  }

  lemma {:induction false} PlaceKeysFails(cols: seq<Option<Column>>, keyCols: seq<Column>, vals: seq<Value>, base: seq<Value>, n: nat)
    requires n <= |keyCols| && |base| == |cols|
    ensures PlaceKeys(cols, keyCols, vals, base, n).outcome.Fail? <==> exists j :: |vals| <= j < n && Some(keyCols[j]) in cols
    ensures PlaceKeys(cols, keyCols, vals, base, n).outcome.Fail? ==> PlaceKeys(cols, keyCols, vals, base, n).outcome.error == IndexOutOfRange
  {
    if n > 0 {
      PlaceKeysFails(cols, keyCols, vals, base, n - 1);
    }
  }

  /**
   * initRecord clears every field to NoValue; with key values and
   * duplicate-free key columns, it fails exactly when a key column among the
   * rowset's columns has no key value, and otherwise puts each key value in
   * the (first) field of its key column, every other field staying NoValue.
   */
  lemma InitPlacement(cols: seq<Option<Column>>, keyCols: seq<Column>, vals: seq<Value>)
    requires NoDup(keyCols)
    ensures InitSpec(cols, Some(keyCols), Some(vals)).outcome != Pass <==> exists j :: |vals| <= j < |keyCols| && Some(keyCols[j]) in cols
    ensures InitSpec(cols, Some(keyCols), Some(vals)).outcome != Pass ==> InitSpec(cols, Some(keyCols), Some(vals)).outcome == Fail(IndexOutOfRange)
    ensures InitSpec(cols, Some(keyCols), Some(vals)).outcome == Pass ==>
            forall j :: 0 <= j < |keyCols| && Some(keyCols[j]) in cols ==>
              j < |vals| && InitSpec(cols, Some(keyCols), Some(vals)).fields[IndexOf(cols, Some(keyCols[j])).value] == vals[j]
    ensures InitSpec(cols, Some(keyCols), Some(vals)).outcome == Pass ==>
            forall i :: 0 <= i < |cols| && NoKeyAt(cols, keyCols, |keyCols|, i) ==> InitSpec(cols, Some(keyCols), Some(vals)).fields[i] == NoValue
  {
    PlaceKeysFails(cols, keyCols, vals, Blank(|cols|), |keyCols|);
    if InitSpec(cols, Some(keyCols), Some(vals)).outcome == Pass {
      PlaceKeysAt(cols, keyCols, vals, Blank(|cols|), |keyCols|);
      PlaceKeysKeeps(cols, keyCols, vals, Blank(|cols|), |keyCols|);
    }
  }

  /** Without key values every field is NoValue; key values on a query without key columns throw a null reference. */
  lemma InitGuards(cols: seq<Option<Column>>, keyCols: Option<seq<Column>>, keyValues: Option<seq<Value>>)
    ensures keyValues.None? ==> InitSpec(cols, keyCols, keyValues) == Placement(seq(|cols|, _ => NoValue), Pass)
    ensures keyValues.Some? && keyCols.None? ==> InitSpec(cols, keyCols, keyValues).outcome == Fail(NullReference)
  {
    assert Blank(|cols|) == seq(|cols|, _ => NoValue);
  }

  // ---------------------------------------------------------------------
  // Generated aliases
  // ---------------------------------------------------------------------

  /** The number a string of decimal digits denotes. */
  function ParseDecimal(s: string): nat
  {
    if |s| == 0 then 0
    else
      var d := s[|s| - 1] as int - '0' as int;
      ParseDecimal(s[..|s| - 1]) * 10 + (if 0 <= d <= 9 then d else 0)
  }

  lemma {:induction false} ParseDecimalString(n: nat)
    ensures ParseDecimal(Query.DecimalString(n)) == n
  {
    if n >= 10 {
      ParseDecimalString(n / 10);
      var s := Query.DecimalString(n);
      assert s[..|s| - 1] == Query.DecimalString(n / 10);
    }
  }

  /** Distinct counter values give distinct aliases (the counter is unbounded here; see README). */
  lemma AliasNamesDistinct(n: nat, m: nat)
    requires n != m
    ensures Query.AliasName(n) != Query.AliasName(m)
  {
    ParseDecimalString(n);
    ParseDecimalString(m);
    assert Query.AliasName(n)[1..] == Query.DecimalString(n);
    assert Query.AliasName(m)[1..] == Query.DecimalString(m);
  }
}
