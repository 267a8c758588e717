/**
 * DBCaseExpr's inference of its metadata (database, source column, data type,
 * enum type, aggregate flag) from the condition/value pairs and the else
 * value, as functions: one step per registered value and a fold over the
 * pairs in iteration order. Each step is characterised attribute by
 * attribute by what the value contributes and a first-wins rule.
 */
module CaseSpec {
  import opened Outcomes
  import DBSchema

  type DatabaseId = nat

  /** A Java class, by name. */
  type JavaClass = string

  /** A data type; Unknown is DataType.UNKNOWN. */
  datatype DataType = Unknown | Known(name: string)

  /** The metadata a column expression reports. */
  datatype ExprInfo = ExprInfo(
    database: Option<DatabaseId>,
    sourceColumn: Option<DBSchema.Column>,
    dataType: DataType,
    enumType: Option<JavaClass>,
    aggregate: bool)

  /**
   * A compare value or target value of a case expression:
   * a Java null; a column expression (nullValue: a DBValueExpr holding null);
   * a column comparison DBCompareColExpr (a DBExpr, not a column expression);
   * any other DBExpr; or a plain Java value of some class.
   */
  datatype CaseOperand =
    | NullRef
    | ColumnExpr(info: ExprInfo, nullValue: bool)
    | CompareColExpr(database: Option<DatabaseId>, columnExpr: ExprInfo)
    | OtherExpr(database: Option<DatabaseId>)
    | Simple(cls: JavaClass, isEnum: bool)

  /** The case column (if any) and the database it belongs to. */
  datatype CaseColumn = CaseColumn(column: DBSchema.Column, database: DatabaseId)

  /** The inferred metadata of a case expression. */
  datatype CaseMeta = CaseMeta(
    database: Option<DatabaseId>,
    sourceColumn: Option<DBSchema.Column>,
    dataType: DataType,
    enumType: Option<JavaClass>,
    aggregate: bool)

  /** isNull: a Java null, or a value expression whose value is null. */
  predicate IsNull(v: CaseOperand)
  {
    v.NullRef? || (v.ColumnExpr? && v.nullValue)
  }

  /** isNotNull */
  predicate IsNotNull(v: CaseOperand)
  {
    !IsNull(v)
  }

  /** The first of two optional values that is present. */
  function Prefer<T>(first: Option<T>, second: Option<T>): Option<T>
  {
    if first.Some? then first else second
  }

  /** The first of two data types that is known. */
  function PreferType(first: DataType, second: DataType): DataType
  {
    if first != Unknown then first else second
  }

  // ---------------------------------------------------------------------
  // What a single compare value or target value contributes
  // ---------------------------------------------------------------------

  /** DBExpr.getDatabase of a compare value; nothing for a null or a plain value. */
  function CompareDatabase(v: CaseOperand): Option<DatabaseId>
  {
    match v
    case ColumnExpr(info, _) => info.database
    case CompareColExpr(db, _) => db
    case OtherExpr(db) => db
    case _ => None
  }

  /** A compare value is aggregate when it is, or compares, an aggregate column expression. */
  predicate CompareAggregate(v: CaseOperand)
  {
    match v
    case ColumnExpr(info, _) => info.aggregate
    case CompareColExpr(_, info) => info.aggregate
    case _ => false
  }

  /** The database a target value contributes: that of a non-null column expression. */
  function TargetDatabase(v: CaseOperand): Option<DatabaseId>
  {
    if IsNull(v) then None
    else match v
      case ColumnExpr(info, _) => info.database
      case _ => None
  }

  /** The source column a target value contributes: that of a non-null column expression. */
  function TargetSource(v: CaseOperand): Option<DBSchema.Column>
  {
    if IsNull(v) then None
    else match v
      case ColumnExpr(info, _) => info.sourceColumn
      case _ => None
  }

  /** The data type a target value contributes: a column expression's own, or fromJavaType of a plain value's class. */
  function TargetType(v: CaseOperand, fromJavaType: JavaClass -> DataType): DataType
  {
    if IsNull(v) then Unknown
    else match v
      case ColumnExpr(info, _) => info.dataType
      case Simple(cls, _) => fromJavaType(cls)
      case _ => Unknown
  }

  /** The enum type a target value contributes: a column expression's, or the class of an enum value. */
  function TargetEnum(v: CaseOperand): Option<JavaClass>
  {
    if IsNull(v) then None
    else match v
      case ColumnExpr(info, _) => info.enumType
      case Simple(cls, isEnum) => if isEnum then Some(cls) else None
      case _ => None
  }

  /** A target value is aggregate when it is a non-null aggregate column expression. */
  predicate TargetAggregate(v: CaseOperand)
  {
    !IsNull(v) && v.ColumnExpr? && v.info.aggregate
  }

  // ---------------------------------------------------------------------
  // The two registration steps
  // ---------------------------------------------------------------------

  /** registerCompareValue */
  function RegisterCompare(m: CaseMeta, v: CaseOperand): (r: CaseMeta)
    ensures r.database == Prefer(m.database, CompareDatabase(v))
    ensures r.aggregate == (m.aggregate || CompareAggregate(v))
    ensures r.sourceColumn == m.sourceColumn && r.dataType == m.dataType && r.enumType == m.enumType
  {
    var withDb := if m.database.None? && CompareDatabase(v).Some? then m.(database := CompareDatabase(v)) else m;
    var cmp := match v
      case CompareColExpr(_, info) => ColumnExpr(info, false)
      case _ => v;
    if cmp.ColumnExpr? && cmp.info.aggregate then withDb.(aggregate := true) else withDb
  }

  /** registerTargetValue */
  function RegisterTarget(m: CaseMeta, v: CaseOperand, fromJavaType: JavaClass -> DataType): (r: CaseMeta)
    ensures r.database == Prefer(m.database, TargetDatabase(v))
    ensures r.sourceColumn == Prefer(m.sourceColumn, TargetSource(v))
    ensures r.dataType == PreferType(m.dataType, TargetType(v, fromJavaType))
    ensures r.enumType == Prefer(m.enumType, TargetEnum(v))
    ensures r.aggregate == (m.aggregate || TargetAggregate(v))
    ensures IsNull(v) ==> r == m
  {
    if IsNull(v) then m
    else match v
      case ColumnExpr(info, _) =>
        CaseMeta(
          if m.database.None? then info.database else m.database,
          if m.sourceColumn.None? && info.sourceColumn.Some? then info.sourceColumn else m.sourceColumn,
          if m.dataType == Unknown then info.dataType else m.dataType,
          if m.enumType.None? && info.enumType.Some? then info.enumType else m.enumType,
          if info.aggregate then true else m.aggregate)
      case Simple(cls, isEnum) =>
        m.(dataType := if m.dataType == Unknown then fromJavaType(cls) else m.dataType,
           enumType := if m.enumType.None? && isEnum then Some(cls) else m.enumType)
      case _ => m
  }

  // ---------------------------------------------------------------------
  // init
  // ---------------------------------------------------------------------

  /** The metadata before any value is registered: only the case column's database. */
  function Initial(caseColumn: Option<CaseColumn>): CaseMeta
  {
    CaseMeta(if caseColumn.Some? then Some(caseColumn.value.database) else None, None, Unknown, None, false)
  }

  /** The metadata after the first n map entries, each registered compare value first, then target value. */
  function RegisterEntries(m0: CaseMeta, entries: seq<(CaseOperand, CaseOperand)>, fromJavaType: JavaClass -> DataType, n: nat)
    : CaseMeta
    requires n <= |entries|
  {
    if n == 0 then m0
    else RegisterTarget(RegisterCompare(RegisterEntries(m0, entries, fromJavaType, n - 1), entries[n - 1].0),
                        entries[n - 1].1, fromJavaType)
  }

  /** init: all map entries in iteration order, then the else value. */
  function Infer(caseColumn: Option<CaseColumn>, entries: seq<(CaseOperand, CaseOperand)>, elseValue: CaseOperand,
                 fromJavaType: JavaClass -> DataType): CaseMeta
  {
    RegisterTarget(RegisterEntries(Initial(caseColumn), entries, fromJavaType, |entries|), elseValue, fromJavaType)
  }

  // ---------------------------------------------------------------------
  // Reference definitions: "the first value that contributes"
  // ---------------------------------------------------------------------

  /** The first present element. */
  function FirstSome<T>(s: seq<Option<T>>): (r: Option<T>)
    ensures r.Some? ==> exists i :: 0 <= i < |s| && s[i] == r && forall j :: 0 <= j < i ==> s[j].None?
    ensures r.None? ==> forall i :: 0 <= i < |s| ==> s[i].None?
  {
    if |s| == 0 then None
    else if s[0].Some? then s[0]
    else
      var r := FirstSome(s[1..]);
      assert r.Some? ==> exists i :: 0 <= i < |s[1..]| && s[1..][i] == r && forall j :: 0 <= j < i ==> s[1..][j].None?;
      assert r.Some? ==> exists i :: 1 <= i < |s| && s[i] == r && forall j :: 0 <= j < i ==> s[j].None? by {
        if r.Some? {
          var i :| 0 <= i < |s[1..]| && s[1..][i] == r && forall j :: 0 <= j < i ==> s[1..][j].None?;
          assert s[i + 1] == r;
          assert forall j :: 0 <= j < i + 1 ==> s[j].None? by {
            forall j | 0 <= j < i + 1 ensures s[j].None? {
              if j > 0 { assert s[j] == s[1..][j - 1]; }
            }
          }
        }
      }
      r
  }

  /** The target values in processing order: each entry's value, then the else value. */
  function Targets(entries: seq<(CaseOperand, CaseOperand)>, n: nat): (r: seq<CaseOperand>)
    requires n <= |entries|
    ensures |r| == n && forall i :: 0 <= i < n ==> r[i] == entries[i].1
  {
    if n == 0 then [] else Targets(entries, n - 1) + [entries[n - 1].1]
  }

  /** The databases offered in processing order: compare value, then target value, for each entry. */
  function DatabaseOffers(entries: seq<(CaseOperand, CaseOperand)>, n: nat): (r: seq<Option<DatabaseId>>)
    requires n <= |entries|
    ensures |r| == 2 * n
  {
    if n == 0 then []
    else DatabaseOffers(entries, n - 1) + [CompareDatabase(entries[n - 1].0), TargetDatabase(entries[n - 1].1)]
  }

  function SourceOffers(ts: seq<CaseOperand>): (r: seq<Option<DBSchema.Column>>)
    ensures |r| == |ts| && forall i :: 0 <= i < |ts| ==> r[i] == TargetSource(ts[i])
  {
    seq(|ts|, i requires 0 <= i < |ts| => TargetSource(ts[i]))
  }

  function EnumOffers(ts: seq<CaseOperand>): (r: seq<Option<JavaClass>>)
    ensures |r| == |ts| && forall i :: 0 <= i < |ts| ==> r[i] == TargetEnum(ts[i])
  {
    seq(|ts|, i requires 0 <= i < |ts| => TargetEnum(ts[i]))
  }

  /** The known data type a target offers, if any. */
  function KnownType(v: CaseOperand, fromJavaType: JavaClass -> DataType): Option<DataType>
  {
    if TargetType(v, fromJavaType) == Unknown then None else Some(TargetType(v, fromJavaType))
  }

  function TypeOffers(ts: seq<CaseOperand>, fromJavaType: JavaClass -> DataType): (r: seq<Option<DataType>>)
    ensures |r| == |ts| && forall i :: 0 <= i < |ts| ==> r[i] == KnownType(ts[i], fromJavaType)
  {
    seq(|ts|, i requires 0 <= i < |ts| => KnownType(ts[i], fromJavaType))
  }

  /** A data type, or Unknown when none is present. */
  function OrUnknown(d: Option<DataType>): DataType
  {
    if d.Some? then d.value else Unknown
  }
}
