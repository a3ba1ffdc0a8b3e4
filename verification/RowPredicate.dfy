/**
 The grid addresses a row by the values it shows.  Those conditions, sent as
 a DELETE or UPDATE, select exactly the rows that look the same.
 */
module RowPredicate {
  import opened Prelude
  import opened Text
  import opened SqlText
  import opened DataStatements

  /** A stored cell; None is SQL NULL, as are null and undefined in the grid. */
  type Cell<V> = Option<V>

  type TableRow<V> = map<string, Cell<V>>

  datatype Truth = True | False | Unknown

  function And(a: Truth, b: Truth): Truth {
    if a == False || b == False then False
    else if a == Unknown || b == Unknown then Unknown
    else True
  }

  /** Equality and null tests in three-valued logic; the grid sends nothing else. */
  function Evaluate<V(==)>(t: Test<Cell<V>>, row: TableRow<V>): Truth {
    if t.column !in row then Unknown
    else
      var cell := row[t.column];
      match t
      case Null(_) => if cell == None then True else False
      case NotNull(_) => if cell == None then False else True
      case Comparison(_, op, value) =>
        if op != "=" || cell == None || value == None then Unknown
        else if cell == value then True else False
  }

  function EvaluateAll<V(==)>(ts: seq<Test<Cell<V>>>, row: TableRow<V>): Truth
    decreases |ts|
  {
    if ts == [] then True else And(Evaluate(ts[0], row), EvaluateAll(ts[1..], row))
  }

  /** The rows a WHERE clause selects are those for which it is true. */
  predicate Selects<V(==)>(ts: seq<Test<Cell<V>>>, row: TableRow<V>) {
    EvaluateAll(ts, row) == True
  }

  /** row[i], which is undefined past the end. */
  function CellAt<V>(row: seq<Cell<V>>, i: nat): Cell<V> {
    if i < |row| then row[i] else None
  }

  function RowCondition<V>(column: string, cell: Cell<V>): Condition<Cell<V>> {
    if cell == None then Condition(column, "IS NULL", None) else Condition(column, "=", cell)
  }

  /** One condition per named column, from column i on. */
  function RowConditions<V>(row: seq<Cell<V>>, columns: seq<string>, i: nat): seq<Condition<Cell<V>>>
    decreases |columns| - i
  {
    if i >= |columns| then []
    else (if columns[i] == "" then [] else [RowCondition(columns[i], CellAt(row, i))]) + RowConditions(row, columns, i + 1)
  }

  method BuildRowWhere<V>(row: seq<Cell<V>>, columns: seq<string>) returns (where: seq<Condition<Cell<V>>>)
    ensures where == RowConditions(row, columns, 0)
  {
    where := [];
    for i := 0 to |columns|
      invariant where + RowConditions(row, columns, i) == RowConditions(row, columns, 0)
    {
      var colName := columns[i];
      if colName == "" { continue; }
      var val := if i < |row| then row[i] else None;
      if val == None {
        where := where + [Condition(colName, "IS NULL", None)];
      } else {
        where := where + [Condition(colName, "=", val)];
      }
    }
  }

  /** The row shows these values in the named columns, nulls included. */
  predicate LooksLike<V(==)>(stored: TableRow<V>, row: seq<Cell<V>>, columns: seq<string>) {
    forall i :: 0 <= i < |columns| && columns[i] != "" ==>
      columns[i] in stored && stored[columns[i]] == CellAt(row, i)
  }

  /** The server takes every column that has a name. */
  predicate ValidColumns(columns: seq<string>) {
    forall i :: 0 <= i < |columns| && columns[i] != "" ==> ValidName(columns[i])
  }

  lemma OperatorsStay()
    ensures Upper("IS NULL") == "IS NULL" && Upper("=") == "=" && IsOperator("=")
  {
    assert Upper("=") == "=" == OPERATORS[0];
  }

  lemma OneColumn<V>(column: string, cell: Cell<V>, stored: TableRow<V>)
    ensures Evaluate(TestOf(RowCondition(column, cell)), stored) == True <==> column in stored && stored[column] == cell
  {
    OperatorsStay();
  }

  /** As LooksLike and ValidColumns, from column i on. */
  predicate LooksLikeFrom<V(==)>(stored: TableRow<V>, row: seq<Cell<V>>, columns: seq<string>, i: nat) {
    forall j :: i <= j < |columns| && columns[j] != "" ==> columns[j] in stored && stored[columns[j]] == CellAt(row, j)
  }

  predicate ValidFrom(columns: seq<string>, i: nat) {
    forall j :: i <= j < |columns| && columns[j] != "" ==> ValidName(columns[j])
  }

  lemma SelectsCons<V>(c: Condition<Cell<V>>, rest: seq<Condition<Cell<V>>>, stored: TableRow<V>)
    ensures Selects(TestsOf([c] + rest), stored) <==> Evaluate(TestOf(c), stored) == True && Selects(TestsOf(rest), stored)
    ensures AllAccepted([c] + rest) <==> IsAccepted(c) && AllAccepted(rest)
  {
    assert TestsOf([c] + rest)[0] == TestOf(c) && TestsOf([c] + rest)[1..] == TestsOf(rest);
    if AllAccepted([c] + rest) {
      assert ([c] + rest)[0] == c;
      assert forall k :: 0 <= k < |rest| ==> rest[k] == ([c] + rest)[k + 1];
    }
  }

  lemma ConditionAccepted<V>(column: string, cell: Cell<V>)
    requires column != ""
    ensures IsAccepted(RowCondition(column, cell)) <==> ValidName(column)
  {
    OperatorsStay();
  }

  lemma FromStep<V>(stored: TableRow<V>, row: seq<Cell<V>>, columns: seq<string>, i: nat)
    requires i < |columns|
    ensures LooksLikeFrom(stored, row, columns, i) <==>
            (columns[i] != "" ==> columns[i] in stored && stored[columns[i]] == CellAt(row, i))
            && LooksLikeFrom(stored, row, columns, i + 1)
    ensures ValidFrom(columns, i) <==> (columns[i] != "" ==> ValidName(columns[i])) && ValidFrom(columns, i + 1)
  {
  }

  /** One named column in front of the conditions of the rest. */
  lemma NamedStep<V>(row: seq<Cell<V>>, columns: seq<string>, i: nat, stored: TableRow<V>)
    requires i < |columns| && columns[i] != ""
    ensures var all, rest := RowConditions(row, columns, i), RowConditions(row, columns, i + 1);
            && (Selects(TestsOf(all), stored) <==>
                columns[i] in stored && stored[columns[i]] == CellAt(row, i) && Selects(TestsOf(rest), stored))
            && (AllAccepted(all) <==> ValidName(columns[i]) && AllAccepted(rest))
  {
    var c := RowCondition(columns[i], CellAt(row, i));
    assert RowConditions(row, columns, i) == [c] + RowConditions(row, columns, i + 1);
    SelectsCons(c, RowConditions(row, columns, i + 1), stored);
    OneColumn(columns[i], CellAt(row, i), stored);
    ConditionAccepted(columns[i], CellAt(row, i));
  }

  lemma {:induction false} SelectsFrom<V>(row: seq<Cell<V>>, columns: seq<string>, i: nat, stored: TableRow<V>)
    requires i <= |columns|
    ensures Selects(TestsOf(RowConditions(row, columns, i)), stored) <==> LooksLikeFrom(stored, row, columns, i)
    ensures AllAccepted(RowConditions(row, columns, i)) <==> ValidFrom(columns, i)
    decreases |columns| - i
  {
    if i < |columns| {
      SelectsFrom(row, columns, i + 1, stored);
      FromStep(stored, row, columns, i);
      if columns[i] != "" {
        NamedStep(row, columns, i, stored);
      } else {
        assert RowConditions(row, columns, i) == RowConditions(row, columns, i + 1);
      }
    }
  }

  /**
   The conditions select a stored row exactly when it looks like the one shown in every column that has a
   name, and they are accepted exactly when all these names are valid.
   */
  lemma RowWhereSelectsEquals<V>(row: seq<Cell<V>>, columns: seq<string>, stored: TableRow<V>)
    ensures AllAccepted(RowConditions(row, columns, 0)) <==> ValidColumns(columns)
    ensures Selects(TestsOf(RowConditions(row, columns, 0)), stored) <==> LooksLike(stored, row, columns)
  {
    SelectsFrom(row, columns, 0, stored);
  }

  /** What a DELETE leaves of a table. */
  function Remaining<V(==)>(ts: seq<Test<Cell<V>>>, rows: seq<TableRow<V>>): seq<TableRow<V>>
    decreases |rows|
  {
    if rows == [] then [] else (if Selects(ts, rows[0]) then [] else [rows[0]]) + Remaining(ts, rows[1..])
  }

  function WithoutLookalikes<V(==)>(rows: seq<TableRow<V>>, row: seq<Cell<V>>, columns: seq<string>): seq<TableRow<V>>
    decreases |rows|
  {
    if rows == [] then []
    else (if LooksLike(rows[0], row, columns) then [] else [rows[0]]) + WithoutLookalikes(rows[1..], row, columns)
  }

  lemma {:induction false} RemainingAre<V>(row: seq<Cell<V>>, columns: seq<string>, rows: seq<TableRow<V>>)
    ensures Remaining(TestsOf(RowConditions(row, columns, 0)), rows) == WithoutLookalikes(rows, row, columns)
    decreases |rows|
  {
    if rows != [] {
      RowWhereSelectsEquals(row, columns, rows[0]);
      RemainingAre(row, columns, rows[1..]);
    }
  }

  lemma {:induction false} SomeCondition<V>(row: seq<Cell<V>>, columns: seq<string>, i: nat, k: nat)
    requires i <= k < |columns| && columns[k] != ""
    ensures RowConditions(row, columns, i) != []
    decreases k - i
  {
    if i < k { SomeCondition(row, columns, i + 1, k); }
  }

  /**
   Deleting a row from the grid, end to end: the text and arguments sent to the server mean a DELETE
   on that table which leaves exactly the stored rows that do not look like the one shown.
   */
  lemma GridDeleteRemovesLookalikes<V>(row: seq<Cell<V>>, columns: seq<string>, table: string, rows: seq<TableRow<V>>)
    requires ValidColumns(columns) && exists k :: 0 <= k < |columns| && columns[k] != ""
    ensures var where := RowConditions(row, columns, 0);
            var s := Meaning(DeleteText(table, where), WhereArgs(where));
            && s == Some(Delete(table, TestsOf(where)))
            && Remaining(s.value.where, rows) == WithoutLookalikes(rows, row, columns)
  {
    var where := RowConditions(row, columns, 0);
    var k :| 0 <= k < |columns| && columns[k] != "";
    SomeCondition(row, columns, 0, k);
    RowWhereSelectsEquals(row, columns, map[]);
    DeleteMeans(table, where);
    RemainingAre(row, columns, rows);
  }
}
