/**
 * The part of DBRecord the query rowset relies on: the field array, the
 * per-field modified flags, the row-set data (the key tuple) and the rowset
 * the record is bound to.
 */
module Records {
  import opened Outcomes
  import opened DBSchema

  /** A value snapshot of a record's state. */
  datatype RecordState = RecordState(fields: seq<Value>, modified: seq<bool>, rowSetData: Option<seq<Value>>)

  /** The record reports at least one modified field (DBRecord.isModified). */
  predicate AnyModified(r: RecordState)
  {
    exists i :: 0 <= i < |r.modified| && r.modified[i]
  }

  /** n cleared modified flags. */
  function Cleared(n: nat): (r: seq<bool>)
    ensures |r| == n && forall i :: 0 <= i < n ==> !r[i]
  {
    seq(n, _ => false)
  }

  class Record {
    /** The rowset the record is bound to. */
    var rowSet: object?
    /** The field values, one per column of the rowset. */
    const fields: array<Value>
    /** The per-field modified flags. */
    var modified: seq<bool>
    /** The row-set data: for a query rowset, the key tuple currently persisted. */
    var rowSetData: Option<seq<Value>>

    ghost predicate Valid()
      reads this
    {
      |modified| == fields.Length
    }

    function State(): (r: RecordState)
      reads this, fields
      ensures |r.fields| == fields.Length && r.modified == modified && r.rowSetData == rowSetData
    {
      RecordState(fields[..], modified, rowSetData)
    }

    constructor (rowSet: object?, n: nat)
      ensures Valid() && fresh(fields)
      ensures this.rowSet == rowSet && State() == RecordState(seq(n, _ => NoValue), Cleared(n), None)
    {
      this.rowSet := rowSet;
      fields := new Value[n](_ => NoValue);
      modified := Cleared(n);
      rowSetData := None;
      new;
      assert fields[..] == seq(n, _ => NoValue);
    }

    /** DBRecord.setValue: store a value and flag the field as modified. */
    method SetValue(i: nat, v: Value)
      requires Valid() && i < fields.Length
      modifies this, fields
      ensures Valid() && rowSet == old(rowSet) && rowSetData == old(rowSetData)
      ensures fields[..] == old(fields[..])[i := v] && modified == old(modified)[i := true]
    {
      fields[i] := v;
      modified := modified[i := true];
    }

    /** DBRecord.updateComplete: the only mutator that clears the modified flags and stores the new row-set data. */
    method UpdateComplete(keys: Option<seq<Value>>)
      requires Valid()
      modifies this
      ensures Valid() && rowSet == old(rowSet)
      ensures modified == Cleared(fields.Length) && rowSetData == keys
    {
      modified := Cleared(fields.Length);
      rowSetData := keys;
    }
  }

  /** The state of a possibly-null record. */
  function StateOf(rec: Record?): (r: Option<RecordState>)
    reads if rec != null then {rec, rec.fields} else {}
    ensures r.Some? <==> rec != null
  {
    if rec == null then None else Some(rec.State())
  }
}
