/**
 The rendering loops of InsertRow, UpdateRow, DeleteRow and BuildWhereClauses.
 Maps are walked in no particular order.
 */
module DataHandlers {
  import opened Prelude
  import opened Text
  import opened SqlText
  import opened DataStatements

  /** The complaint about the first condition that is refused. */
  function FirstError<V>(cs: seq<Condition<V>>): string
    decreases |cs|
  {
    if cs == [] then "at least one WHERE condition is required"
    else if cs[0].column == "" then "column name is required in WHERE condition"
    else if !ValidName(cs[0].column) then "invalid column name in WHERE: " + cs[0].column
    else if !IsAccepted(cs[0]) then "unsupported operator: " + cs[0].operator
    else FirstError(cs[1..])
  }

  lemma {:induction false} FirstErrorAt<V>(cs: seq<Condition<V>>, i: nat)
    requires i <= |cs| && forall j :: 0 <= j < i ==> IsAccepted(cs[j])
    ensures FirstError(cs) == FirstError(cs[i..])
    decreases i
  {
    if i > 0 {
      FirstErrorAt(cs[1..], i - 1);
      assert cs[1..][i - 1..] == cs[i..];
    } else {
      assert cs[0..] == cs;
    }
  }

  lemma SameKind<V>(c: Condition<V>, i: nat, j: nat)
    ensures WhereItem(c, i).Compare? == WhereItem(c, j).Compare?
  {
  }

  lemma {:induction false} WhereArgsSnoc<V>(cs: seq<Condition<V>>, i: nat)
    requires i < |cs|
    ensures WhereArgs(cs[..i + 1]) == WhereArgs(cs[..i]) + (if WhereItem(cs[i], 1).Compare? then [cs[i].value] else [])
    decreases i
  {
    if i > 0 {
      assert cs[..i + 1][1..] == cs[1..][..i] && cs[..i][1..] == cs[1..][..i - 1];
      WhereArgsSnoc(cs[1..], i - 1);
    } else {
      assert cs[..1] == [cs[0]] && cs[..0] == [];
    }
  }

  lemma {:induction false} WhereItemsSnoc<V>(cs: seq<Condition<V>>, i: nat, first: nat)
    requires i < |cs|
    ensures WhereItems(cs[..i + 1], first) ==
            WhereItems(cs[..i], first) + [WhereItem(cs[i], first + |WhereArgs(cs[..i])|)]
    decreases i
  {
    if i > 0 {
      SameKind(cs[0], first, 1);
      assert cs[..i + 1][1..] == cs[1..][..i] && cs[..i][1..] == cs[1..][..i - 1];
      WhereItemsSnoc(cs[1..], i - 1, if WhereItem(cs[0], first).Compare? then first + 1 else first);
    } else {
      assert cs[..1] == [cs[0]] && cs[..0] == [];
    }
  }

  /** What the i-th condition adds to the clauses and to the arguments. */
  lemma ClauseStep<V>(cs: seq<Condition<V>>, i: nat, first: nat, index: nat)
    requires i < |cs| && index == first + |WhereArgs(cs[..i])|
    ensures PrintItems(WhereItems(cs[..i + 1], first)) ==
            PrintItems(WhereItems(cs[..i], first)) + [PrintItem(WhereItem(cs[i], index))]
    ensures WhereArgs(cs[..i + 1]) == WhereArgs(cs[..i]) + (if WhereItem(cs[i], index).Compare? then [cs[i].value] else [])
  {
    WhereArgsSnoc(cs, i);
    WhereItemsSnoc(cs, i, first);
    SameKind(cs[i], 1, index);
    PrintSnoc(WhereItems(cs[..i], first), WhereItem(cs[i], index));
  }

  lemma OperatorsDiffer(op: string)
    ensures IsOperator(op) ==> Upper(op) != "IS NULL" && Upper(op) != "IS NOT NULL"
  {
    if IsOperator(op) { OperatorShape(op); }
  }

  /** The switch of BuildWhereClauses: one condition's clause, and whether it takes an argument. */
  method RenderCondition<V>(c: Condition<V>, argIdx: nat) returns (r: Result<(string, bool)>)
    ensures r.Ok? <==> IsAccepted(c)
    ensures r.Ok? ==> r.result == (PrintItem(WhereItem(c, argIdx)), WhereItem(c, argIdx).Compare?)
    ensures r.Err? ==> r.message == FirstError([c])
  {
    OperatorsDiffer(c.operator);
    if c.column == "" { return Err("column name is required in WHERE condition"); }
    if !ValidName(c.column) { return Err("invalid column name in WHERE: " + c.column); }
    if IsOperator(c.operator) {
      return Ok((QuoteIdent(c.column) + " " + c.operator + " $" + Decimal(argIdx), true));
    } else if Upper(c.operator) == "IS NULL" {
      return Ok((QuoteIdent(c.column) + " IS NULL", false));
    } else if Upper(c.operator) == "IS NOT NULL" {
      return Ok((QuoteIdent(c.column) + " IS NOT NULL", false));
    } else {
      return Err("unsupported operator: " + c.operator);
    }
  }

  lemma FirstErrorIs<V>(cs: seq<Condition<V>>, i: nat)
    requires i < |cs| && AllAccepted(cs[..i]) && !IsAccepted(cs[i])
    ensures FirstError(cs) == FirstError([cs[i]]) && !AllAccepted(cs)
  {
    assert forall j :: 0 <= j < i ==> cs[j] == cs[..i][j];
    FirstErrorAt(cs, i);
    assert cs[i..][0] == cs[i];
  }

  method BuildWhereClauses<V>(conditions: seq<Condition<V>>, startIdx: nat) returns (r: Result<(seq<string>, seq<V>)>)
    ensures r.Ok? <==> conditions != [] && AllAccepted(conditions)
    ensures r.Ok? ==> r.result == (PrintItems(WhereItems(conditions, startIdx)), WhereArgs(conditions))
    ensures r.Err? ==> r.message == FirstError(conditions)
  {
    var clauses: seq<string> := [];
    var args: seq<V> := [];
    var argIdx := startIdx;
    for i := 0 to |conditions|
      invariant AllAccepted(conditions[..i])
      invariant clauses == PrintItems(WhereItems(conditions[..i], startIdx))
      invariant args == WhereArgs(conditions[..i]) && argIdx == startIdx + |args|
    {
      var clause := RenderCondition(conditions[i], argIdx);
      if clause.Err? {
        FirstErrorIs(conditions, i);
        return Err(clause.message);
      }
      ClauseStep(conditions, i, startIdx, argIdx);
      AcceptedSnoc(conditions, i);
      clauses := clauses + [clause.result.0];
      if clause.result.1 {
        args := args + [conditions[i].value];
        argIdx := argIdx + 1;
      }
    }
    assert conditions[..|conditions|] == conditions;
    if |clauses| == 0 { return Err("at least one WHERE condition is required"); }
    return Ok((clauses, args));
  }

  lemma AcceptedSnoc<V>(cs: seq<Condition<V>>, i: nat)
    requires i < |cs| && AllAccepted(cs[..i]) && IsAccepted(cs[i])
    ensures AllAccepted(cs[..i + 1])
  {
    assert cs[..i + 1] == cs[..i] + [cs[i]];
  }

  lemma InsertConcat(a: string, b: string, c: string)
    ensures "INSERT INTO " + a + " (" + b + ") VALUES (" + c + ")" == "INSERT INTO " + (a + " (" + (b + ") VALUES (" + (c + ")" + "")))
  {
  }

  lemma UpdateConcat(a: string, b: string, c: string)
    ensures "UPDATE " + a + " SET " + b + " WHERE " + c == "UPDATE " + (a + " SET " + (b + " WHERE " + c))
  {
  }

  lemma DeleteConcat(a: string, b: string)
    ensures "DELETE FROM " + a + " WHERE " + b == "DELETE FROM " + (a + " WHERE " + b)
  {
  }

  method InsertRow<V>(table: string, values: map<string, V>) returns (r: Result<(string, seq<V>)>)
    ensures r.Ok? <==> values != map[]
    ensures r.Ok? ==> Meaning(r.result.0, r.result.1) == Some(Insert(table, values))
    ensures r.Ok? ==> Consecutive(Placeholders(r.result.0), 1, |r.result.1|)
  {
    if values == map[] { return Err("at least one column value is required"); }
    var cols: seq<string> := [];
    var vals: seq<V> := [];
    var args: seq<string> := [];
    var argIdx := 1;
    var todo := values.Keys;
    ghost var order: seq<string> := [];
    while todo != {}
      invariant todo <= values.Keys && Enumerates(order, values.Keys - todo)
      invariant cols == PrintItems(NameItems(order)) && vals == Values(values, order)
      invariant args == PrintItems(MarkItems(1, |order|)) && argIdx == |order| + 1
      decreases todo
    {
      var col :| col in todo;
      todo := todo - {col};
      cols := cols + [QuoteIdent(col)];
      vals := vals + [values[col]];
      args := args + ["$" + Decimal(argIdx)];
      argIdx := argIdx + 1;
      order := order + [col];
    }
    assert values.Keys - todo == values.Keys;
    Nonempty(values, order);
    InsertMeans(table, values, order);
    InsertConcat(QuoteIdent(table), Join(cols, ", "), Join(args, ", "));
    return Ok(("INSERT INTO " + QuoteIdent(table) + " (" + Join(cols, ", ") + ") VALUES (" + Join(args, ", ") + ")", vals));
  }

  lemma Nonempty<V>(values: map<string, V>, order: seq<string>)
    requires values != map[] && Enumerates(order, values.Keys)
    ensures order != []
  {
    assert order == [] ==> values.Keys == {};
    assert values.Keys == {} ==> values == map[];
  }

  method RenderSets<V>(values: map<string, V>) returns (setClauses: seq<string>, args: seq<V>, argIdx: nat, ghost order: seq<string>)
    ensures Enumerates(order, values.Keys)
    ensures setClauses == PrintItems(AssignItems(order)) && args == Values(values, order) && argIdx == |order| + 1
  {
    setClauses, args, argIdx, order := [], [], 1, [];
    var todo := values.Keys;
    while todo != {}
      invariant todo <= values.Keys && Enumerates(order, values.Keys - todo)
      invariant setClauses == PrintItems(AssignItems(order)) && args == Values(values, order) && argIdx == |order| + 1
      decreases todo
    {
      var col :| col in todo;
      todo := todo - {col};
      SetStep(values, order, col);
      setClauses := setClauses + [QuoteIdent(col) + " = $" + Decimal(argIdx)];
      args := args + [values[col]];
      argIdx := argIdx + 1;
      order := order + [col];
    }
    assert values.Keys - todo == values.Keys;
  }

  lemma SetStep<V>(values: map<string, V>, order: seq<string>, col: string)
    requires col in values && forall c :: c in order ==> c in values
    ensures PrintItems(AssignItems(order + [col])) ==
            PrintItems(AssignItems(order)) + [QuoteIdent(col) + " = $" + Decimal(|order| + 1)]
    ensures Values(values, order + [col]) == Values(values, order) + [values[col]]
  {
    AssignSnoc(order, col);
    ValuesSnoc(values, order, col);
  }

  lemma AssignSnoc(order: seq<string>, col: string)
    ensures PrintItems(AssignItems(order + [col])) == PrintItems(AssignItems(order)) + [PrintItem(Assign(col, |order| + 1))]
  {
    var item := Assign(col, |order| + 1);
    assert AssignItems(order + [col]) == AssignItems(order) + [item];
    PrintSnoc(AssignItems(order), item);
  }

  lemma ValuesSnoc<V>(values: map<string, V>, order: seq<string>, col: string)
    requires col in values && forall c :: c in order ==> c in values
    ensures Values(values, order + [col]) == Values(values, order) + [values[col]]
  {
  }

  lemma PrintSnoc(items: seq<Item>, item: Item)
    ensures PrintItems(items + [item]) == PrintItems(items) + [PrintItem(item)]
  {
  }

  lemma UpdateTextIs<V>(table: string, order: seq<string>, where: seq<Condition<V>>, sets: string, conditions: string)
    requires sets == PrintList(AssignItems(order), ", ") && conditions == PrintList(WhereItems(where, |order| + 1), " AND ")
    ensures "UPDATE " + QuoteIdent(table) + " SET " + sets + " WHERE " + conditions == UpdateText(table, order, where)
  {
    UpdateConcat(QuoteIdent(table), sets, conditions);
  }

  method UpdateRow<V>(table: string, values: map<string, V>, where: seq<Condition<V>>) returns (r: Result<(string, seq<V>)>)
    ensures r.Ok? <==> values != map[] && where != [] && AllAccepted(where)
    ensures r.Ok? ==> Meaning(r.result.0, r.result.1) == Some(Update(table, values, TestsOf(where)))
    ensures r.Ok? ==> Consecutive(Placeholders(r.result.0), 1, |r.result.1|)
  {
    if values == map[] { return Err("at least one column value to update is required"); }
    if |where| == 0 { return Err("WHERE conditions are required for safety"); }
    var setClauses, args, argIdx, order := RenderSets(values);
    var built := BuildWhereClauses(where, argIdx);
    if built.Err? { return Err("invalid WHERE condition: " + built.message); }
    var (whereClauses, newArgs) := built.result;
    Nonempty(values, order);
    UpdateMeans(table, values, order, where);
    UpdateTextIs(table, order, where, Join(setClauses, ", "), Join(whereClauses, " AND "));
    var sql := "UPDATE " + QuoteIdent(table) + " SET " + Join(setClauses, ", ") + " WHERE " + Join(whereClauses, " AND ");
    return Ok((sql, args + newArgs));
  }

  lemma DeleteTextIs<V>(table: string, where: seq<Condition<V>>, conditions: string)
    requires conditions == PrintList(WhereItems(where, 1), " AND ")
    ensures "DELETE FROM " + QuoteIdent(table) + " WHERE " + conditions == DeleteText(table, where)
  {
    DeleteConcat(QuoteIdent(table), conditions);
  }

  method DeleteRow<V>(table: string, where: seq<Condition<V>>) returns (r: Result<(string, seq<V>)>)
    ensures r.Ok? <==> where != [] && AllAccepted(where)
    ensures r.Ok? ==> Meaning(r.result.0, r.result.1) == Some(Delete(table, TestsOf(where)))
    ensures r.Ok? ==> Consecutive(Placeholders(r.result.0), 1, |r.result.1|)
  {
    if |where| == 0 { return Err("WHERE conditions are required for safety"); }
    var built := BuildWhereClauses(where, 1);
    if built.Err? { return Err("invalid WHERE condition: " + built.message); }
    var (whereClauses, args) := built.result;
    DeleteMeans(table, where);
    DeleteTextIs(table, where, Join(whereClauses, " AND "));
    return Ok(("DELETE FROM " + QuoteIdent(table) + " WHERE " + Join(whereClauses, " AND "), args));
  }
}
