/** What DBCaseExpr's inference guarantees: each attribute is the first contribution in processing order. */
module CaseProps {
  import opened Outcomes
  import DBSchema
  import opened CaseSpec

  lemma {:induction false} FirstSomeAppend<T>(s: seq<Option<T>>, x: Option<T>)
    ensures FirstSome(s + [x]) == Prefer(FirstSome(s), x)
  {
    if |s| > 0 {
      assert (s + [x])[1..] == s[1..] + [x];
      FirstSomeAppend(s[1..], x);
    }
  }

  /** The first present element is the one at the first index where an element is present. */
  lemma {:induction false} FirstSomeAt<T>(s: seq<Option<T>>, i: nat)
    requires i < |s| && s[i].Some? && forall j :: 0 <= j < i ==> s[j].None?
    ensures FirstSome(s) == s[i]
  {
    if i > 0 {
      FirstSomeAt(s[1..], i - 1);
    }
  }

  lemma SourceOffersAppend(ts: seq<CaseOperand>, v: CaseOperand)
    ensures SourceOffers(ts + [v]) == SourceOffers(ts) + [TargetSource(v)]
  {
  }

  lemma TypeOffersAppend(ts: seq<CaseOperand>, v: CaseOperand, fj: JavaClass -> DataType)
    ensures TypeOffers(ts + [v], fj) == TypeOffers(ts, fj) + [KnownType(v, fj)]
  {
  }

  lemma EnumOffersAppend(ts: seq<CaseOperand>, v: CaseOperand)
    ensures EnumOffers(ts + [v]) == EnumOffers(ts) + [TargetEnum(v)]
  {
  }

  lemma {:induction false} EntriesDatabase(m0: CaseMeta, es: seq<(CaseOperand, CaseOperand)>, fj: JavaClass -> DataType, n: nat)
    requires n <= |es|
    ensures RegisterEntries(m0, es, fj, n).database == Prefer(m0.database, FirstSome(DatabaseOffers(es, n)))
  {
    if n > 0 {
      EntriesDatabase(m0, es, fj, n - 1);
      var prev := DatabaseOffers(es, n - 1);
      var a, b := CompareDatabase(es[n - 1].0), TargetDatabase(es[n - 1].1);
      assert DatabaseOffers(es, n) == (prev + [a]) + [b];
      FirstSomeAppend(prev, a);
      FirstSomeAppend(prev + [a], b);
    }
  }

  lemma {:induction false} EntriesSource(m0: CaseMeta, es: seq<(CaseOperand, CaseOperand)>, fj: JavaClass -> DataType, n: nat)
    requires n <= |es|
    ensures RegisterEntries(m0, es, fj, n).sourceColumn == Prefer(m0.sourceColumn, FirstSome(SourceOffers(Targets(es, n))))
  {
    if n > 0 {
      EntriesSource(m0, es, fj, n - 1);
      var ts, v := Targets(es, n - 1), es[n - 1].1;
      SourceOffersAppend(ts, v);
      FirstSomeAppend(SourceOffers(ts), TargetSource(v));
    }
  }

  lemma {:induction false} EntriesType(m0: CaseMeta, es: seq<(CaseOperand, CaseOperand)>, fj: JavaClass -> DataType, n: nat)
    requires n <= |es|
    ensures RegisterEntries(m0, es, fj, n).dataType == PreferType(m0.dataType, OrUnknown(FirstSome(TypeOffers(Targets(es, n), fj))))
  {
    if n > 0 {
      EntriesType(m0, es, fj, n - 1);
      var ts, v := Targets(es, n - 1), es[n - 1].1;
      TypeOffersAppend(ts, v, fj);
      FirstSomeAppend(TypeOffers(ts, fj), KnownType(v, fj));
    }
  }

  lemma {:induction false} EntriesEnum(m0: CaseMeta, es: seq<(CaseOperand, CaseOperand)>, fj: JavaClass -> DataType, n: nat)
    requires n <= |es|
    ensures RegisterEntries(m0, es, fj, n).enumType == Prefer(m0.enumType, FirstSome(EnumOffers(Targets(es, n))))
  {
    if n > 0 {
      EntriesEnum(m0, es, fj, n - 1);
      var ts, v := Targets(es, n - 1), es[n - 1].1;
      EnumOffersAppend(ts, v);
      FirstSomeAppend(EnumOffers(ts), TargetEnum(v));
    }
  }

  lemma {:induction false} EntriesAggregate(m0: CaseMeta, es: seq<(CaseOperand, CaseOperand)>, fj: JavaClass -> DataType, n: nat)
    requires n <= |es|
    ensures RegisterEntries(m0, es, fj, n).aggregate <==>
            m0.aggregate || exists i :: 0 <= i < n && (CompareAggregate(es[i].0) || TargetAggregate(es[i].1))
  {
    if n > 0 {
      EntriesAggregate(m0, es, fj, n - 1);
      var e := es[n - 1];
      if CompareAggregate(e.0) || TargetAggregate(e.1) {
        assert exists i :: 0 <= i < n && (CompareAggregate(es[i].0) || TargetAggregate(es[i].1)) by {
          assert CompareAggregate(es[n - 1].0) || TargetAggregate(es[n - 1].1);
        }
      }
    }
  }

  /** Every attribute that is set after the first n entries has its final value, and the aggregate flag never goes back to false. */
  predicate Settled(before: CaseMeta, after: CaseMeta)
  {
    (before.database.Some? ==> after.database == before.database) &&
    (before.sourceColumn.Some? ==> after.sourceColumn == before.sourceColumn) &&
    (before.dataType != Unknown ==> after.dataType == before.dataType) &&
    (before.enumType.Some? ==> after.enumType == before.enumType) &&
    (before.aggregate ==> after.aggregate)
  }

  /** Registering further entries never overrides an attribute already set. */
  lemma {:induction false} EntriesSettled(m0: CaseMeta, es: seq<(CaseOperand, CaseOperand)>, fj: JavaClass -> DataType, n: nat, k: nat)
    requires n <= k <= |es|
    ensures Settled(RegisterEntries(m0, es, fj, n), RegisterEntries(m0, es, fj, k))
    decreases k
  {
    if k > n {
      EntriesSettled(m0, es, fj, n, k - 1);
    }
  }

  /**
   * What is set after any prefix of the entries is what the expression
   * reports: later entries and the else value only fill attributes still
   * unset.
   */
  lemma InferKeepsSettled(caseColumn: Option<CaseColumn>, es: seq<(CaseOperand, CaseOperand)>, elseValue: CaseOperand,
                          fj: JavaClass -> DataType, n: nat)
    requires n <= |es|
    ensures Settled(RegisterEntries(Initial(caseColumn), es, fj, n), Infer(caseColumn, es, elseValue, fj))
  {
    EntriesSettled(Initial(caseColumn), es, fj, n, |es|);
  }

  /**
   * The database is the case column's, or else the first database offered by
   * a compare value or a target value, in processing order, the else value last.
   */
  lemma InferDatabase(caseColumn: Option<CaseColumn>, es: seq<(CaseOperand, CaseOperand)>, elseValue: CaseOperand, fj: JavaClass -> DataType)
    ensures Infer(caseColumn, es, elseValue, fj).database ==
            (if caseColumn.Some? then Some(caseColumn.value.database)
             else FirstSome(DatabaseOffers(es, |es|) + [TargetDatabase(elseValue)]))
  {
    EntriesDatabase(Initial(caseColumn), es, fj, |es|);
    FirstSomeAppend(DatabaseOffers(es, |es|), TargetDatabase(elseValue));
  }

  /** The source column is the first one a target offers; the case column plays no part. */
  lemma InferSource(caseColumn: Option<CaseColumn>, es: seq<(CaseOperand, CaseOperand)>, elseValue: CaseOperand, fj: JavaClass -> DataType)
    ensures Infer(caseColumn, es, elseValue, fj).sourceColumn == FirstSome(SourceOffers(Targets(es, |es|) + [elseValue]))
  {
    EntriesSource(Initial(caseColumn), es, fj, |es|);
    SourceOffersAppend(Targets(es, |es|), elseValue);
    FirstSomeAppend(SourceOffers(Targets(es, |es|)), TargetSource(elseValue));
  }

  /** The data type is the first known type a target offers, else Unknown. */
  lemma InferType(caseColumn: Option<CaseColumn>, es: seq<(CaseOperand, CaseOperand)>, elseValue: CaseOperand, fj: JavaClass -> DataType)
    ensures Infer(caseColumn, es, elseValue, fj).dataType == OrUnknown(FirstSome(TypeOffers(Targets(es, |es|) + [elseValue], fj)))
  {
    EntriesType(Initial(caseColumn), es, fj, |es|);
    TypeOffersAppend(Targets(es, |es|), elseValue, fj);
    FirstSomeAppend(TypeOffers(Targets(es, |es|), fj), KnownType(elseValue, fj));
  }

  /** The enum type is the first one a target offers. */
  lemma InferEnum(caseColumn: Option<CaseColumn>, es: seq<(CaseOperand, CaseOperand)>, elseValue: CaseOperand, fj: JavaClass -> DataType)
    ensures Infer(caseColumn, es, elseValue, fj).enumType == FirstSome(EnumOffers(Targets(es, |es|) + [elseValue]))
  {
    EntriesEnum(Initial(caseColumn), es, fj, |es|);
    EnumOffersAppend(Targets(es, |es|), elseValue);
    FirstSomeAppend(EnumOffers(Targets(es, |es|)), TargetEnum(elseValue));
  }

  /** Some compare value or target value, the else value included, is aggregate. */
  predicate AnyAggregate(es: seq<(CaseOperand, CaseOperand)>, elseValue: CaseOperand)
  {
    (exists i :: 0 <= i < |es| && (CompareAggregate(es[i].0) || TargetAggregate(es[i].1))) || TargetAggregate(elseValue)
  }

  /** The expression is aggregate exactly when some compare value or target value is. */
  lemma InferAggregate(caseColumn: Option<CaseColumn>, es: seq<(CaseOperand, CaseOperand)>, elseValue: CaseOperand, fj: JavaClass -> DataType)
    ensures Infer(caseColumn, es, elseValue, fj).aggregate <==> AnyAggregate(es, elseValue)
  {
    EntriesAggregate(Initial(caseColumn), es, fj, |es|);
  }

  /**
   * The metadata inference reports, attribute by attribute, as an independent
   * definition: the case column's database or else the first one offered,
   * then the first source column, known data type and enum type the targets
   * offer (else value last), and aggregate iff some value is.
   */
  function ReferenceMeta(caseColumn: Option<CaseColumn>, es: seq<(CaseOperand, CaseOperand)>, elseValue: CaseOperand,
                         fj: JavaClass -> DataType): CaseMeta
  {
    CaseMeta(
      if caseColumn.Some? then Some(caseColumn.value.database)
      else FirstSome(DatabaseOffers(es, |es|) + [TargetDatabase(elseValue)]),
      FirstSome(SourceOffers(Targets(es, |es|) + [elseValue])),
      OrUnknown(FirstSome(TypeOffers(Targets(es, |es|) + [elseValue], fj))),
      FirstSome(EnumOffers(Targets(es, |es|) + [elseValue])),
      AnyAggregate(es, elseValue))
  }

  /** init's fold over the pairs computes the reference metadata. */
  lemma InferMatchesReference(caseColumn: Option<CaseColumn>, es: seq<(CaseOperand, CaseOperand)>, elseValue: CaseOperand,
                              fj: JavaClass -> DataType)
    ensures Infer(caseColumn, es, elseValue, fj) == ReferenceMeta(caseColumn, es, elseValue, fj)
  {
    InferDatabase(caseColumn, es, elseValue, fj);
    InferSource(caseColumn, es, elseValue, fj);
    InferType(caseColumn, es, elseValue, fj);
    InferEnum(caseColumn, es, elseValue, fj);
    InferAggregate(caseColumn, es, elseValue, fj);
  }

  /**
   * First wins: when the i-th target is the first to offer a known data type,
   * that is the expression's data type whatever later targets and the else
   * value offer.
   */
  lemma FirstKnownTypeWins(caseColumn: Option<CaseColumn>, es: seq<(CaseOperand, CaseOperand)>, elseValue: CaseOperand,
                           fj: JavaClass -> DataType, i: nat)
    requires i < |es| && TargetType(es[i].1, fj) != Unknown
    requires forall j :: 0 <= j < i ==> TargetType(es[j].1, fj) == Unknown
    ensures Infer(caseColumn, es, elseValue, fj).dataType == TargetType(es[i].1, fj)
  {
    InferType(caseColumn, es, elseValue, fj);
    var offers := TypeOffers(Targets(es, |es|) + [elseValue], fj);
    FirstSomeAt(offers, i);
  }

  /** The case column never becomes the source column: only the targets decide it. */
  lemma SourceIgnoresCaseColumn(c1: Option<CaseColumn>, c2: Option<CaseColumn>, es: seq<(CaseOperand, CaseOperand)>,
                                elseValue: CaseOperand, fj: JavaClass -> DataType)
    ensures Infer(c1, es, elseValue, fj).sourceColumn == Infer(c2, es, elseValue, fj).sourceColumn
  {
    InferSource(c1, es, elseValue, fj);
    InferSource(c2, es, elseValue, fj);
  }

  /** Null targets and non-column DBExpr targets contribute nothing at all. */
  lemma InertTargets(m: CaseMeta, v: CaseOperand, fj: JavaClass -> DataType)
    requires IsNull(v) || v.CompareColExpr? || v.OtherExpr?
    ensures RegisterTarget(m, v, fj) == m
  {
  }

  /**
   * A case expression with pairs {condA: a DECIMAL column expression,
   * condB: null} and else value 5 is of type DECIMAL; the integer else value
   * does not override it.
   */
  lemma DecimalBranchWins(condA: CaseOperand, condB: CaseOperand, decimalCol: ExprInfo, fj: JavaClass -> DataType)
    requires decimalCol.dataType == Known("DECIMAL")
    requires fj("java.lang.Integer") == Known("INTEGER")
    ensures Infer(None, [(condA, ColumnExpr(decimalCol, false)), (condB, NullRef)], Simple("java.lang.Integer", false), fj).dataType
            == Known("DECIMAL")
  {
    FirstKnownTypeWins(None, [(condA, ColumnExpr(decimalCol, false)), (condB, NullRef)], Simple("java.lang.Integer", false), fj, 0);
  }
  /**
   * isNull: a Java null and a value expression holding null are null, and
   * registering either as a target changes nothing; the same column
   * expression holding a value is not null and reports its own metadata.
   */
  lemma NullValueExprIgnored(m: CaseMeta, info: ExprInfo, fj: JavaClass -> DataType)
    ensures IsNull(NullRef) && IsNull(ColumnExpr(info, true)) && IsNotNull(ColumnExpr(info, false))
    ensures RegisterTarget(m, NullRef, fj) == m && RegisterTarget(m, ColumnExpr(info, true), fj) == m
    ensures RegisterTarget(CaseMeta(None, None, Unknown, None, false), ColumnExpr(info, false), fj) ==
            CaseMeta(info.database, info.sourceColumn, info.dataType, info.enumType, info.aggregate)
  {
  }
}
