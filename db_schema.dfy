/**
 * The vocabulary the query rowset works with: columns and the tables that own
 * them, column expressions, field values, WHERE predicates, join clauses, SET
 * assignments, the table metadata and the database as an oracle.
 */
module DBSchema {
  import opened Outcomes

  /** Identity of a real table (a DBRowSet). */
  type TableId = nat

  /** An open connection handle; only its presence matters. */
  datatype Connection = Connection(id: nat)

  /** A field or parameter value. NoValue is the "not yet read or set" sentinel, distinct from Null. */
  datatype Value = NoValue | Null | Sysdate | Text(s: string) | Number(n: int)

  /** ObjectUtils.isEmpty: null, the NoValue sentinel or the empty string. */
  predicate IsEmpty(v: Value)
  {
    v == NoValue || v == Null || v == Text("")
  }

  /** A real table column (DBColumn): its name, owning table and read-only flag. */
  datatype Column = Column(name: string, table: TableId, readOnly: bool)

  /**
   * A column expression of a select list: either a table column itself, or a
   * computed expression (function, case expression, value) with a display
   * name and possibly an underlying update column.
   */
  datatype ColumnExpr =
    | Col(column: Column)
    | Computed(text: string, name: string, updateColumn: Option<Column>)

  /** DBColumnExpr.getUpdateColumn: the table column that can be written through this expression. */
  function UpdateColumn(e: ColumnExpr): (r: Option<Column>)
    ensures e.Col? ==> r == Some(e.column)
  {
    match e
    case Col(c) => Some(c)
    case Computed(_, _, u) => u
  }

  /** DBColumnExpr.getName */
  function ExprName(e: ColumnExpr): string
  {
    match e
    case Col(c) => c.name
    case Computed(_, n, _) => n
  }

  /** Comparison operators of a column comparison. */
  datatype CmpOp = Eq | NotEq | Less | LessOrEq | Greater | GreaterOrEq | Like

  /** The right-hand side of a comparison: a literal, or a bound command parameter (prepared mode). */
  datatype Operand = Lit(value: Value) | Param(value: Value)

  /** A value as it goes into a predicate: wrapped as a parameter exactly when prepared statements are enabled. */
  function Bind(prepared: bool, v: Value): (r: Operand)
    ensures r.value == v && (r.Param? <==> prepared)
  {
    if prepared then Param(v) else Lit(v)
  }

  /** A WHERE predicate: a column comparison (DBCompareColExpr) or any other kind of compare expression. */
  datatype Predicate =
    | ColCompare(expr: ColumnExpr, op: CmpOp, rhs: Operand)
    | OtherPredicate(kind: string)

  /** DBColumn.is(value): the equality predicate on a table column. */
  function Is(c: Column, rhs: Operand): Predicate
  {
    ColCompare(Col(c), Eq, rhs)
  }

  /** A join clause: a join on two column expressions (DBColumnJoinExpr) or any other join kind. */
  datatype Join =
    | ColumnJoin(left: ColumnExpr, right: ColumnExpr)
    | OtherJoin(kind: string)

  /** A SET assignment (DBSetExpr) of an update command. */
  datatype Assignment = Assign(column: Column, value: Value)

  /** One update statement sent to the database: its table, SET list and WHERE list. */
  datatype Statement = Statement(table: TableId, sets: seq<Assignment>, wheres: seq<Predicate>)

  /**
   * Table metadata: each table's own primary-key columns, its optimistic
   * concurrency timestamp column if any, and the column value validation
   * (DBColumn.validate), which is foreign code and may reject a value.
   */
  datatype Schema = Schema(
    primaryKeys: map<TableId, seq<Column>>,
    timestamps: map<TableId, Column>,
    validate: (Column, Value) -> bool)

  /** DBRowSet.isKeyColumn on the column's own table. */
  predicate IsKeyColumn(s: Schema, t: TableId, c: Column)
  {
    t in s.primaryKeys && c in s.primaryKeys[t]
  }

  /** DBRowSet.getTimestampColumn */
  function TimestampColumn(s: Schema, t: TableId): (r: Option<Column>)
    ensures r.Some? <==> t in s.timestamps
  {
    if t in s.timestamps then Some(s.timestamps[t]) else None
  }

  /**
   * The database and connection as an oracle: whether prepared statements are
   * enabled, the value getUpdateTimestamp returns, the affected-row count
   * executeSQL returns for an update statement, and the row (if any) the
   * wrapped select returns under a given WHERE list.
   */
  datatype Database = Database(
    prepared: bool,
    now: Value,
    execute: Statement -> int,
    select: seq<Predicate> -> Option<seq<Value>>)

  /** The exception kinds the rowset operations throw. */
  datatype Error =
    | InvalidArgument
    | InvalidKey
    | RecordNotFound
    | NoPrimaryKey
    | NotSupported
    | NotImplemented
    | ItemNotFound(column: Column)
    | RecordUpdateFailed
    | RecordUpdateInvalid
    | InvalidValue(column: Column)
    | NullReference
    | IndexOutOfRange

  /**
   * List.indexOf: the first position holding x. Used on the rowset's column
   * list (which may hold nulls, hence Option<Column>) and on the declared key
   * columns.
   */
  function IndexOf<T(==)>(s: seq<T>, x: T): (r: Option<nat>)
    ensures r.Some? ==> r.value < |s| && s[r.value] == x
    ensures r.Some? ==> forall j :: 0 <= j < r.value ==> s[j] != x
    ensures r.None? <==> x !in s
  {
    if |s| == 0 then None
    else if s[0] == x then Some(0)
    else match IndexOf(s[1..], x)
      case None => None
      case Some(i) => Some(i + 1)
  }

  /** A sequence without repeated elements. */
  predicate NoDup<T(==)>(s: seq<T>)
  {
    forall i, j :: 0 <= i < j < |s| ==> s[i] != s[j]
  }
}
