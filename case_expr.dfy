/**
 * The class DBCaseExpr: the metadata fields that init fills in, one
 * registered value at a time, proved to reach the metadata CaseSpec infers.
 */
module CaseExpr {
  import opened Outcomes
  import DBSchema
  import opened CaseSpec
  import CaseProps

  class CaseExpr {
    var database: Option<DatabaseId>
    var sourceColumn: Option<DBSchema.Column>
    var dataType: DataType
    var enumType: Option<JavaClass>
    var aggregateFunc: bool

    /** The fields as one value. */
    function Meta(): CaseMeta
      reads this
    {
      CaseMeta(database, sourceColumn, dataType, enumType, aggregateFunc)
    }

    /** A fresh case expression: nothing known yet. */
    constructor ()
      ensures Meta() == CaseMeta(None, None, Unknown, None, false)
    {
      database := None;
      sourceColumn := None;
      dataType := Unknown;
      enumType := None;
      aggregateFunc := false;
    }

    function GetDatabase(): Option<DatabaseId>
      reads this
    {
      database
    }

    function GetDataType(): DataType
      reads this
    {
      dataType
    }

    function GetEnumType(): Option<JavaClass>
      reads this
    {
      enumType
    }

    function GetSourceColumn(): Option<DBSchema.Column>
      reads this
    {
      sourceColumn
    }

    function IsAggregate(): bool
      reads this
    {
      aggregateFunc
    }

    /** A case expression is never updateable: it has no update column, whatever its source column. */
    function GetUpdateColumn(): (r: Option<DBSchema.Column>)
      reads this
      ensures r.None?
    {
      None
    }

    /**
     * init: the case column's database, then every map entry in iteration
     * order (compare value, then target value), then the else value.
     */
    method Init(caseColumn: Option<CaseColumn>, valueMap: seq<(CaseOperand, CaseOperand)>, elseValue: CaseOperand,
                fromJavaType: JavaClass -> DataType)
      // init is called from the constructors, which leave every other field at its initial value.
      requires sourceColumn.None? && dataType == Unknown && enumType.None? && !aggregateFunc
      modifies this
      ensures Meta() == Infer(caseColumn, valueMap, elseValue, fromJavaType)
      // What the getters then report: each attribute is the first one offered, in processing order.
      ensures var ref := CaseProps.ReferenceMeta(caseColumn, valueMap, elseValue, fromJavaType);
              GetDatabase() == ref.database && GetSourceColumn() == ref.sourceColumn && GetDataType() == ref.dataType &&
              GetEnumType() == ref.enumType && IsAggregate() == ref.aggregate
    {
      database := if caseColumn.Some? then Some(caseColumn.value.database) else None;
      var i := 0;
      while i < |valueMap|
        invariant 0 <= i <= |valueMap|
        invariant Meta() == RegisterEntries(Initial(caseColumn), valueMap, fromJavaType, i)
      {
        RegisterCompareValue(valueMap[i].0);
        RegisterTargetValue(valueMap[i].1, fromJavaType);
        i := i + 1;
      }
      RegisterTargetValue(elseValue, fromJavaType);
      CaseProps.InferMatchesReference(caseColumn, valueMap, elseValue, fromJavaType);
    }

    /** registerCompareValue */
    method RegisterCompareValue(value: CaseOperand)
      modifies this
      ensures Meta() == RegisterCompare(old(Meta()), value)
    {
      if database.None? && CompareDatabase(value).Some? {
        database := CompareDatabase(value);
      }
      var v := value;
      if v.CompareColExpr? {
        v := ColumnExpr(v.columnExpr, false);
      }
      if v.ColumnExpr? && v.info.aggregate {
        aggregateFunc := true;
      }
    }

    /** registerTargetValue */
    method RegisterTargetValue(value: CaseOperand, fromJavaType: JavaClass -> DataType)
      modifies this
      ensures Meta() == RegisterTarget(old(Meta()), value, fromJavaType)
    {
      if IsNull(value) {
        return;
      }
      match value {
        case ColumnExpr(info, _) =>
          if database.None? {
            database := info.database;
          }
          if sourceColumn.None? && info.sourceColumn.Some? {
            sourceColumn := info.sourceColumn;
          }
          if dataType == Unknown {
            dataType := info.dataType;
          }
          if enumType.None? && info.enumType.Some? {
            enumType := info.enumType;
          }
          if info.aggregate {
            aggregateFunc := true;
          }
        case Simple(cls, isEnum) =>
          if dataType == Unknown {
            dataType := fromJavaType(cls);
          }
          if enumType.None? && isEnum {
            enumType := Some(cls);
          }
        case _ =>
      }
    }
  }
}
