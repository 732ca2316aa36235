/**
 * The load-time fill: in the loaded table, every missing cell of the listed
 * columns that exist is replaced by the empty string. The table is kept
 * column by column, as the application indexes it by column name, and a
 * missing cell is None.
 */
module Loader {
  import opened Wrappers

  /** The columns that are filled, in the order they are visited. */
  const ColumnsToCheck: seq<string> :=
    ["ingredients", "diet", "flavor_profile", "course", "state", "region", "prep_time", "cook_time"]

  /** One column of the table, top to bottom; None is a missing cell. */
  type Column = seq<Option<string>>

  predicate NoMissing(col: Column) {
    forall i :: 0 <= i < |col| ==> col[i].Some?
  }

  /** fillna(''): missing cells become "", present cells are kept. */
  function FillNa(col: Column): (filled: Column)
    ensures |filled| == |col|
    ensures NoMissing(filled)
    ensures forall i :: 0 <= i < |col| && col[i].Some? ==> filled[i] == col[i]
    ensures forall i :: 0 <= i < |col| && col[i].None? ==> filled[i] == Some("")
  {
    seq(|col|, i requires 0 <= i < |col| => if col[i].None? then Some("") else col[i])
  }

  lemma FillNaIdempotent(col: Column)
    ensures FillNa(FillNa(col)) == FillNa(col)
  {
  }

  /**
   * The table after the fill: the same columns; each listed column that
   * exists keeps its length, has every missing cell replaced by "" and keeps
   * every present cell; every other column is unchanged. A listed column that does not exist is not
   * added.
   */
  function Filled(columns: map<string, Column>): (table: map<string, Column>)
    ensures table.Keys == columns.Keys
    ensures forall name :: name in table && name in ColumnsToCheck ==> NoMissing(table[name])
    ensures forall name :: name in table && name in ColumnsToCheck ==>
      |table[name]| == |columns[name]| &&
      forall i :: 0 <= i < |columns[name]| && columns[name][i].None? ==> table[name][i] == Some("")
    ensures forall name :: name in table && name !in ColumnsToCheck ==> table[name] == columns[name]
    ensures forall name, i :: name in table && 0 <= i < |columns[name]| && columns[name][i].Some? ==>
      |table[name]| == |columns[name]| && table[name][i] == columns[name][i]
  {
    map name | name in columns :: if name in ColumnsToCheck then FillNa(columns[name]) else columns[name]
  }

  /** Filling a second time changes nothing. */
  lemma FilledIdempotent(columns: map<string, Column>)
    ensures Filled(Filled(columns)) == Filled(columns)
  {
    var once := Filled(columns);
    forall name | name in once ensures Filled(once)[name] == once[name] {
      if name in ColumnsToCheck {
        FillNaIdempotent(columns[name]);
      }
    }
  }

  /** The loaded table, whose columns the fill replaces in place. */
  class Frame {
    var columns: map<string, Column>

    constructor (columns: map<string, Column>)
      ensures this.columns == columns
    {
      this.columns := columns;
    }

    /** Visit the listed columns in order and fill each one the table has. */
    method FillMissing()
      modifies this
      ensures columns == Filled(old(columns))
    {
      for i := 0 to |ColumnsToCheck|
        invariant columns.Keys == old(columns).Keys
        invariant forall name :: name in columns ==>
          columns[name] == if name in ColumnsToCheck[..i] then FillNa(old(columns)[name]) else old(columns)[name]
      {
        var column := ColumnsToCheck[i];
        assert ColumnsToCheck[..i + 1] == ColumnsToCheck[..i] + [column];
        if column in columns {
          FillNaIdempotent(old(columns)[column]);
          columns := columns[column := FillNa(columns[column])];
        }
      }
      assert ColumnsToCheck[..|ColumnsToCheck|] == ColumnsToCheck;
    }
  }
}
