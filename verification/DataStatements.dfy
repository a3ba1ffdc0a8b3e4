/**
 INSERT, UPDATE and DELETE as the data handlers render them, what such a text
 and its arguments mean, and that the two agree with the request.
 */
module DataStatements {
  import opened Prelude
  import opened Text
  import opened SqlText

  // ---------- Requests and meanings ----------

  datatype Condition<+V> = Condition(column: string, operator: string, value: V)

  datatype Test<+V> = Comparison(column: string, op: string, value: V) | Null(column: string) | NotNull(column: string)

  datatype Statement<+V> =
    | Insert(table: string, values: map<string, V>)
    | Update(table: string, values: map<string, V>, where: seq<Test<V>>)
    | Delete(table: string, where: seq<Test<V>>)

  predicate IsAccepted<V>(c: Condition<V>) {
    && c.column != "" && ValidName(c.column)
    && (IsOperator(c.operator) || Upper(c.operator) == "IS NULL" || Upper(c.operator) == "IS NOT NULL")
  }

  predicate AllAccepted<V>(cs: seq<Condition<V>>) {
    forall i :: 0 <= i < |cs| ==> IsAccepted(cs[i])
  }

  function TestOf<V>(c: Condition<V>): Test<V> {
    if Upper(c.operator) == "IS NULL" then Null(c.column)
    else if Upper(c.operator) == "IS NOT NULL" then NotNull(c.column)
    else Comparison(c.column, Upper(c.operator), c.value)
  }

  /**
   Which conditions are accepted: a valid column name and one of nine operators, in upper or lower case;
   a null test looks at the column, a comparison compares it with the value by that operator.
   */
  lemma AcceptedIff<V>(c: Condition<V>)
    ensures IsAccepted(c) <==>
            ValidName(c.column) && Upper(c.operator) in {"=", "!=", ">", "<", ">=", "<=", "LIKE", "IS NULL", "IS NOT NULL"}
    ensures c.operator == "like" || c.operator == "Like" ==> Upper(c.operator) == "LIKE"
    ensures IsAccepted(c) ==>
              TestOf(c) == if Upper(c.operator) == "IS NULL" then Null(c.column)
                           else if Upper(c.operator) == "IS NOT NULL" then NotNull(c.column)
                           else Comparison(c.column, Upper(c.operator), c.value)
  {
    assert OPERATORS[0] == "=" && OPERATORS[1] == "!=" && OPERATORS[2] == ">" && OPERATORS[3] == "<";
    assert OPERATORS[4] == ">=" && OPERATORS[5] == "<=" && OPERATORS[6] == "LIKE";
  }

  function TestsOf<V>(cs: seq<Condition<V>>): (r: seq<Test<V>>)
    ensures |r| == |cs|
    ensures forall i :: 0 <= i < |r| ==> r[i] == TestOf(cs[i])
  {
    seq(|cs|, i requires 0 <= i < |cs| => TestOf(cs[i]))
  }

  // ---------- Reading a statement ----------

  datatype Parsed =
    | ParsedInsert(table: string, columns: seq<Item>, marks: seq<Item>)
    | ParsedUpdate(table: string, sets: seq<Item>, where: seq<Item>)
    | ParsedDelete(table: string, where: seq<Item>)

  /** What follows a fixed piece of text. */
  function After(s: string, piece: string): Option<string> {
    if HasPrefix(s, piece) then Some(s[|piece|..]) else None
  }

  /** A table name, a fixed piece of text, and the rest. */
  function ReadTable(s: string, piece: string): Option<(string, string)> {
    match ReadIdent(s)
    case None => None
    case Some((table, rest)) =>
      match After(rest, piece)
      case Some(after) => Some((table, after))
      case None => None
  }

  /** A list, a fixed piece of text, and the rest. */
  function ReadSection(kind: Kind, s: string, piece: string): Option<(seq<Item>, string)> {
    match ReadList(kind, ", ", s)
    case None => None
    case Some((items, rest)) =>
      match After(rest, piece)
      case Some(after) => Some((items, after))
      case None => None
  }

  function ReadWhere(s: string): Option<seq<Item>> {
    match ReadList(Conditions, " AND ", s)
    case Some((items, rest)) => if rest == "" then Some(items) else None
    case None => None
  }

  function ParseInsert(s: string): Option<Parsed> {
    match ReadTable(s, " (")
    case None => None
    case Some((table, lists)) =>
      match ReadSection(Names, lists, ") VALUES (")
      case None => None
      case Some((columns, values)) =>
        match ReadSection(Marks, values, ")")
        case Some((marks, end)) => if end == "" then Some(ParsedInsert(table, columns, marks)) else None
        case None => None
  }

  function ParseUpdate(s: string): Option<Parsed> {
    match ReadTable(s, " SET ")
    case None => None
    case Some((table, lists)) =>
      match ReadSection(Assigns, lists, " WHERE ")
      case None => None
      case Some((sets, conditions)) =>
        match ReadWhere(conditions)
        case Some(where) => Some(ParsedUpdate(table, sets, where))
        case None => None
  }

  function ParseDelete(s: string): Option<Parsed> {
    match ReadTable(s, " WHERE ")
    case None => None
    case Some((table, conditions)) =>
      match ReadWhere(conditions)
      case Some(where) => Some(ParsedDelete(table, where))
      case None => None
  }

  function ParseStatement(s: string): Option<Parsed> {
    if HasPrefix(s, "INSERT INTO ") then ParseInsert(s[12..])
    else if HasPrefix(s, "UPDATE ") then ParseUpdate(s[7..])
    else if HasPrefix(s, "DELETE FROM ") then ParseDelete(s[12..])
    else None
  }

  // ---------- Binding the arguments ----------

  function Argument<V>(args: seq<V>, index: nat): Option<V> {
    if 1 <= index <= |args| then Some(args[index - 1]) else None
  }

  /** Column and placeholder pairs as a map; a column named twice means nothing. */
  function BindColumns<V>(columns: seq<Item>, marks: seq<Item>, args: seq<V>): Option<map<string, V>>
    decreases |columns|
  {
    if columns == [] && marks == [] then Some(map[])
    else if columns == [] || marks == [] || columns[0].Mark? || !(marks[0].Mark? || marks[0].Assign?) then None
    else
      match (Argument(args, marks[0].index), BindColumns(columns[1..], marks[1..], args))
      case (Some(v), Some(m)) => if columns[0].column in m then None else Some(m[columns[0].column := v])
      case _ => None
  }

  function BindTest<V>(item: Item, args: seq<V>): Option<Test<V>> {
    match item
    case Compare(c, op, n) =>
      (match Argument(args, n)
       case Some(v) => Some(Comparison(c, op, v))
       case None => None)
    case IsNull(c) => Some(Null(c))
    case IsNotNull(c) => Some(NotNull(c))
    case _ => None
  }

  function BindTests<V>(items: seq<Item>, args: seq<V>): Option<seq<Test<V>>>
    decreases |items|
  {
    if items == [] then Some([])
    else
      match (BindTest(items[0], args), BindTests(items[1..], args))
      case (Some(t), Some(rest)) => Some([t] + rest)
      case _ => None
  }

  function Bind<V>(parsed: Parsed, args: seq<V>): Option<Statement<V>> {
    match parsed
    case ParsedInsert(table, columns, marks) =>
      (match BindColumns(columns, marks, args)
       case Some(values) => Some(Insert(table, values))
       case None => None)
    case ParsedUpdate(table, sets, where) =>
      (match (BindColumns(sets, sets, args), BindTests(where, args))
       case (Some(values), Some(tests)) => Some(Update(table, values, tests))
       case _ => None)
    case ParsedDelete(table, where) =>
      (match BindTests(where, args)
       case Some(tests) => Some(Delete(table, tests))
       case None => None)
  }

  /** What the server is asked to do by a text and its arguments. */
  function Meaning<V>(sql: string, args: seq<V>): Option<Statement<V>> {
    match ParseStatement(sql)
    case Some(parsed) => Bind(parsed, args)
    case None => None
  }

  /** The placeholder numbers in the order they appear. */
  function Indexes(items: seq<Item>): seq<nat>
    decreases |items|
  {
    if items == [] then []
    else
      (if items[0].Mark? || items[0].Assign? || items[0].Compare? then [items[0].index] else []) + Indexes(items[1..])
  }

  function Numbered(parsed: Parsed): seq<nat> {
    match parsed
    case ParsedInsert(_, _, marks) => Indexes(marks)
    case ParsedUpdate(_, sets, where) => Indexes(sets) + Indexes(where)
    case ParsedDelete(_, where) => Indexes(where)
  }

  function Placeholders(sql: string): seq<nat> {
    match ParseStatement(sql)
    case Some(parsed) => Numbered(parsed)
    case None => []
  }

  /** first, first + 1, ... up to n numbers */
  predicate Consecutive(s: seq<nat>, first: nat, n: nat) {
    |s| == n && forall i :: 0 <= i < n ==> s[i] == first + i
  }

  // ---------- Printing ----------

  function NameItems(order: seq<string>): (r: seq<Item>)
    ensures |r| == |order|
    ensures forall i :: 0 <= i < |r| ==> r[i] == Name(order[i])
  {
    seq(|order|, i requires 0 <= i < |order| => Name(order[i]))
  }

  function MarkItems(first: nat, n: nat): (r: seq<Item>)
    ensures |r| == n
    ensures forall i :: 0 <= i < n ==> r[i] == Mark(first + i)
  {
    seq(n, i requires 0 <= i < n => Mark(first + i))
  }

  function AssignItems(order: seq<string>): (r: seq<Item>)
    ensures |r| == |order|
    ensures forall i :: 0 <= i < |r| ==> r[i] == Assign(order[i], 1 + i)
  {
    seq(|order|, i requires 0 <= i < |order| => Assign(order[i], 1 + i))
  }

  function WhereItem<V>(c: Condition<V>, index: nat): Item {
    if Upper(c.operator) == "IS NULL" then IsNull(c.column)
    else if Upper(c.operator) == "IS NOT NULL" then IsNotNull(c.column)
    else Compare(c.column, c.operator, index)
  }

  function WhereItems<V>(cs: seq<Condition<V>>, first: nat): (r: seq<Item>)
    ensures |r| == |cs|
    decreases |cs|
  {
    if cs == [] then []
    else
      var item := WhereItem(cs[0], first);
      [item] + WhereItems(cs[1..], if item.Compare? then first + 1 else first)
  }

  function WhereArgs<V>(cs: seq<Condition<V>>): seq<V>
    decreases |cs|
  {
    if cs == [] then [] else (if WhereItem(cs[0], 1).Compare? then [cs[0].value] else []) + WhereArgs(cs[1..])
  }

  function Values<V>(values: map<string, V>, order: seq<string>): (r: seq<V>)
    requires forall c :: c in order ==> c in values
    ensures |r| == |order|
    ensures forall i :: 0 <= i < |r| ==> r[i] == values[order[i]]
  {
    seq(|order|, i requires 0 <= i < |order| => values[order[i]])
  }

  function InsertText(table: string, order: seq<string>): string {
    "INSERT INTO " + (QuoteIdent(table)
    + " (" + (PrintList(NameItems(order), ", ") + ") VALUES (" + (PrintList(MarkItems(1, |order|), ", ") + ")" + "")))
  }

  function UpdateText<V>(table: string, order: seq<string>, cs: seq<Condition<V>>): string {
    "UPDATE " + (QuoteIdent(table)
    + " SET " + (PrintList(AssignItems(order), ", ") + " WHERE " + PrintList(WhereItems(cs, |order| + 1), " AND ")))
  }

  function DeleteText<V>(table: string, cs: seq<Condition<V>>): string {
    "DELETE FROM " + (QuoteIdent(table) + " WHERE " + PrintList(WhereItems(cs, 1), " AND "))
  }

  // ---------- Parsing what was printed ----------

  lemma TableReads(table: string, piece: string, rest: string)
    requires piece != "" && piece[0] == ' '
    ensures ReadTable(QuoteIdent(table) + piece + rest, piece) == Some((table, rest))
  {
    assert QuoteIdent(table) + piece + rest == QuoteIdent(table) + (piece + rest);
    IdentReads(table, piece + rest);
    assert (piece + rest)[|piece|..] == rest;
  }

  lemma SectionReads(items: seq<Item>, kind: Kind, piece: string, rest: string)
    requires PrintableList(items, kind)
    requires piece != "" && (piece[0] == ' ' || piece[0] == ')')
    ensures ReadSection(kind, PrintList(items, ", ") + piece + rest, piece) == Some((CanonicalAll(items), rest))
  {
    var text := PrintList(items, ", ");
    Regroup(text, piece, rest);
    ListReads(items, kind, ", ", piece + rest);
  }

  lemma Regroup(text: string, piece: string, rest: string)
    requires piece != ""
    ensures text + piece + rest == text + (piece + rest)
    ensures After(piece + rest, piece) == Some(rest) && (piece + rest)[0] == piece[0]
  {
    assert (piece + rest)[|piece|..] == rest;
  }

  lemma WhereReads(items: seq<Item>)
    requires PrintableList(items, Conditions)
    ensures ReadWhere(PrintList(items, " AND ")) == Some(CanonicalAll(items))
  {
    assert PrintList(items, " AND ") + "" == PrintList(items, " AND ");
    ListReads(items, Conditions, " AND ", "");
  }

  lemma InsertBody(table: string, columns: seq<Item>, marks: seq<Item>)
    requires PrintableList(columns, Names) && PrintableList(marks, Marks)
    ensures ParseInsert(QuoteIdent(table) + " (" + (PrintList(columns, ", ") + ") VALUES (" + (PrintList(marks, ", ") + ")" + ""))) ==
            Some(ParsedInsert(table, CanonicalAll(columns), CanonicalAll(marks)))
  {
    var values := PrintList(marks, ", ") + ")" + "";
    var lists := PrintList(columns, ", ") + ") VALUES (" + values;
    TableReads(table, " (", lists);
    SectionReads(columns, Names, ") VALUES (", values);
    SectionReads(marks, Marks, ")", "");
  }

  lemma UpdateBody(table: string, sets: seq<Item>, where: seq<Item>)
    requires PrintableList(sets, Assigns) && PrintableList(where, Conditions)
    ensures ParseUpdate(QuoteIdent(table) + " SET " + (PrintList(sets, ", ") + " WHERE " + PrintList(where, " AND "))) ==
            Some(ParsedUpdate(table, CanonicalAll(sets), CanonicalAll(where)))
  {
    var conditions := PrintList(where, " AND ");
    TableReads(table, " SET ", PrintList(sets, ", ") + " WHERE " + conditions);
    SectionReads(sets, Assigns, " WHERE ", conditions);
    WhereReads(where);
  }

  lemma DeleteBody(table: string, where: seq<Item>)
    requires PrintableList(where, Conditions)
    ensures ParseDelete(QuoteIdent(table) + " WHERE " + PrintList(where, " AND ")) ==
            Some(ParsedDelete(table, CanonicalAll(where)))
  {
    TableReads(table, " WHERE ", PrintList(where, " AND "));
    WhereReads(where);
  }

  lemma Dispatch(body: string)
    ensures ParseStatement("INSERT INTO " + body) == ParseInsert(body)
    ensures ParseStatement("UPDATE " + body) == ParseUpdate(body)
    ensures ParseStatement("DELETE FROM " + body) == ParseDelete(body)
  {
    var i, u, d := "INSERT INTO " + body, "UPDATE " + body, "DELETE FROM " + body;
    assert i[12..] == body && u[7..] == body && d[12..] == body;
    assert u[0] == 'U' && d[0] == 'D';
  }

  lemma InsertParses(table: string, order: seq<string>)
    requires order != []
    ensures ParseStatement(InsertText(table, order)) ==
            Some(ParsedInsert(table, NameItems(order), MarkItems(1, |order|)))
  {
    var names := NameItems(order);
    var marks := MarkItems(1, |order|);
    var body := QuoteIdent(table) + " (" + (PrintList(names, ", ") + ") VALUES (" + (PrintList(marks, ", ") + ")" + ""));
    InsertBody(table, names, marks);
    Dispatch(body);
    assert CanonicalAll(names) == names && CanonicalAll(marks) == marks;
  }

  lemma UpdateParses<V>(table: string, order: seq<string>, cs: seq<Condition<V>>)
    requires order != [] && cs != [] && AllAccepted(cs)
    ensures ParseStatement(UpdateText(table, order, cs)) ==
            Some(ParsedUpdate(table, AssignItems(order), CanonicalAll(WhereItems(cs, |order| + 1))))
  {
    var sets := AssignItems(order);
    var where := WhereItems(cs, |order| + 1);
    WhereItemsPrintable(cs, |order| + 1);
    var body := QuoteIdent(table) + " SET " + (PrintList(sets, ", ") + " WHERE " + PrintList(where, " AND "));
    UpdateBody(table, sets, where);
    Dispatch(body);
    assert CanonicalAll(sets) == sets;
  }

  lemma DeleteParses<V>(table: string, cs: seq<Condition<V>>)
    requires cs != [] && AllAccepted(cs)
    ensures ParseStatement(DeleteText(table, cs)) == Some(ParsedDelete(table, CanonicalAll(WhereItems(cs, 1))))
  {
    var where := WhereItems(cs, 1);
    WhereItemsPrintable(cs, 1);
    var body := QuoteIdent(table) + " WHERE " + PrintList(where, " AND ");
    DeleteBody(table, where);
    Dispatch(body);
  }

  lemma {:induction false} WhereItemsPrintable<V>(cs: seq<Condition<V>>, first: nat)
    requires AllAccepted(cs)
    ensures forall i :: 0 <= i < |cs| ==> Printable(WhereItems(cs, first)[i]) && KindOf(WhereItems(cs, first)[i]) == Conditions
    decreases |cs|
  {
    if cs != [] {
      assert IsAccepted(cs[0]);
      WhereItemsPrintable(cs[1..], if WhereItem(cs[0], first).Compare? then first + 1 else first);
    }
  }

  // ---------- Binding what was parsed ----------

  function Among<V>(values: map<string, V>, names: seq<string>): map<string, V> {
    map c | c in values && c in names :: values[c]
  }

  lemma AmongStep<V>(values: map<string, V>, order: seq<string>, k: nat)
    requires Enumerates(order, values.Keys) && k < |order|
    ensures order[k] !in Among(values, order[k + 1..])
    ensures Among(values, order[k + 1..])[order[k] := values[order[k]]] == Among(values, order[k..])
  {
    TailMembers(order, k);
    var rest := Among(values, order[k + 1..]);
    assert rest[order[k] := values[order[k]]].Keys == Among(values, order[k..]).Keys;
  }

  lemma TailMembers(order: seq<string>, k: nat)
    requires k < |order| && forall i, j :: 0 <= i < j < |order| ==> order[i] != order[j]
    ensures order[k] !in order[k + 1..]
    ensures forall c :: c in order[k..] <==> c == order[k] || c in order[k + 1..]
  {
    assert order[k..] == [order[k]] + order[k + 1..];
  }

  /** Column i of the order goes with placeholder i + 1, which goes with its value. */
  ghost predicate Aligned<V>(columns: seq<Item>, marks: seq<Item>, order: seq<string>, values: map<string, V>, args: seq<V>) {
    && Enumerates(order, values.Keys) && |order| == |columns| == |marks| <= |args|
    && (forall i :: 0 <= i < |order| ==> columns[i] == Name(order[i]) || columns[i] == Assign(order[i], 1 + i))
    && (forall i :: 0 <= i < |order| ==> marks[i] == Mark(1 + i) || marks[i] == Assign(order[i], 1 + i))
    && (forall i :: 0 <= i < |order| ==> args[i] == values[order[i]])
  }

  lemma BindStep<V>(columns: seq<Item>, marks: seq<Item>, order: seq<string>, values: map<string, V>, args: seq<V>, k: nat, later: map<string, V>)
    requires Aligned(columns, marks, order, values, args) && k < |order| && order[k] !in later
    requires BindColumns(columns[k + 1..], marks[k + 1..], args) == Some(later)
    ensures BindColumns(columns[k..], marks[k..], args) == Some(later[order[k] := values[order[k]]])
  {
    assert columns[k..][0] == columns[k] && marks[k..][0] == marks[k];
    assert columns[k..][1..] == columns[k + 1..] && marks[k..][1..] == marks[k + 1..];
    assert Argument(args, 1 + k) == Some(values[order[k]]);
  }

  lemma {:induction false} ColumnsBind<V>(columns: seq<Item>, marks: seq<Item>, order: seq<string>, values: map<string, V>, args: seq<V>, k: nat)
    requires Aligned(columns, marks, order, values, args) && k <= |order|
    ensures BindColumns(columns[k..], marks[k..], args) == Some(Among(values, order[k..]))
    decreases |order| - k
  {
    if k < |order| {
      ColumnsBind(columns, marks, order, values, args, k + 1);
      AmongStep(values, order, k);
      BindStep(columns, marks, order, values, args, k, Among(values, order[k + 1..]));
    }
  }

  lemma AllColumnsBind<V>(columns: seq<Item>, marks: seq<Item>, order: seq<string>, values: map<string, V>, args: seq<V>)
    requires Aligned(columns, marks, order, values, args)
    ensures BindColumns(columns, marks, args) == Some(values)
  {
    ColumnsBind(columns, marks, order, values, args, 0);
    assert columns[0..] == columns && marks[0..] == marks && order[0..] == order;
    assert Among(values, order) == values;
  }

  /** The arguments of the conditions, from position `first - 1` on. */
  ghost predicate ArgsAt<V>(cs: seq<Condition<V>>, first: nat, args: seq<V>) {
    && 1 <= first && first - 1 + |WhereArgs(cs)| <= |args|
    && forall i :: 0 <= i < |WhereArgs(cs)| ==> args[first - 1 + i] == WhereArgs(cs)[i]
  }

  lemma ArgsStep<V>(cs: seq<Condition<V>>, first: nat, args: seq<V>)
    requires cs != [] && ArgsAt(cs, first, args)
    ensures ArgsAt(cs[1..], if WhereItem(cs[0], first).Compare? then first + 1 else first, args)
    ensures WhereItem(cs[0], first).Compare? ==> Argument(args, first) == Some(cs[0].value)
  {
    var used := if WhereItem(cs[0], first).Compare? then 1 else 0;
    assert WhereItem(cs[0], first).Compare? == WhereItem(cs[0], 1).Compare?;
    var rest := WhereArgs(cs[1..]);
    assert forall i :: 0 <= i < |rest| ==> rest[i] == WhereArgs(cs)[used + i];
    if used == 1 { assert args[first - 1 + 0] == WhereArgs(cs)[0]; }
  }

  lemma OneTestBinds<V>(c: Condition<V>, first: nat, args: seq<V>)
    requires IsAccepted(c) && (WhereItem(c, first).Compare? ==> Argument(args, first) == Some(c.value))
    ensures BindTest(Canonical(WhereItem(c, first)), args) == Some(TestOf(c))
  {
  }

  lemma {:induction false} TestsBind<V>(cs: seq<Condition<V>>, first: nat, args: seq<V>)
    requires AllAccepted(cs) && ArgsAt(cs, first, args)
    ensures BindTests(CanonicalAll(WhereItems(cs, first)), args) == Some(TestsOf(cs))
    decreases |cs|
  {
    if cs != [] {
      var next := if WhereItem(cs[0], first).Compare? then first + 1 else first;
      ArgsStep(cs, first, args);
      OneTestBinds(cs[0], first, args);
      TestsBind(cs[1..], next, args);
      var items := CanonicalAll(WhereItems(cs, first));
      assert items == [Canonical(WhereItem(cs[0], first))] + CanonicalAll(WhereItems(cs[1..], next));
      BindCons(items[0], CanonicalAll(WhereItems(cs[1..], next)), args, TestOf(cs[0]), TestsOf(cs[1..]));
      assert TestsOf(cs) == [TestOf(cs[0])] + TestsOf(cs[1..]);
    }
  }

  lemma BindCons<V>(item: Item, items: seq<Item>, args: seq<V>, t: Test<V>, ts: seq<Test<V>>)
    requires BindTest(item, args) == Some(t) && BindTests(items, args) == Some(ts)
    ensures BindTests([item] + items, args) == Some([t] + ts)
  {
    assert ([item] + items)[1..] == items;
  }

  lemma {:induction false} CanonicalIndexes(items: seq<Item>)
    ensures Indexes(CanonicalAll(items)) == Indexes(items)
    decreases |items|
  {
    if items != [] {
      CanonicalIndexes(items[1..]);
      assert CanonicalAll(items)[1..] == CanonicalAll(items[1..]);
    }
  }

  lemma ConsecutiveConcat(a: seq<nat>, b: seq<nat>, first: nat)
    requires Consecutive(a, first, |a|) && Consecutive(b, first + |a|, |b|)
    ensures Consecutive(a + b, first, |a| + |b|)
  {
  }

  lemma {:induction false} WhereIndexes<V>(cs: seq<Condition<V>>, first: nat)
    ensures Consecutive(Indexes(WhereItems(cs, first)), first, |WhereArgs(cs)|)
    decreases |cs|
  {
    if cs != [] {
      var item := WhereItem(cs[0], first);
      assert item.Compare? == WhereItem(cs[0], 1).Compare?;
      WhereIndexes(cs[1..], if item.Compare? then first + 1 else first);
      assert WhereItems(cs, first)[1..] == WhereItems(cs[1..], if item.Compare? then first + 1 else first);
      var rest := Indexes(WhereItems(cs[1..], if item.Compare? then first + 1 else first));
      if item.Compare? { ConsecutiveConcat([first], rest, first); }
    }
  }

  lemma {:induction false} PlainIndexes(items: seq<Item>, first: nat)
    requires forall i :: 0 <= i < |items| ==> (items[i].Mark? || items[i].Assign?) && items[i].index == first + i
    ensures Consecutive(Indexes(items), first, |items|)
    decreases |items|
  {
    if items != [] {
      PlainIndexes(items[1..], first + 1);
      ConsecutiveConcat([first], Indexes(items[1..]), first);
    }
  }

  // ---------- Main results ----------

  /** Whatever order the map was walked in, the statement inserts exactly the requested values. */
  lemma InsertMeans<V>(table: string, values: map<string, V>, order: seq<string>)
    requires order != [] && Enumerates(order, values.Keys)
    ensures Meaning(InsertText(table, order), Values(values, order)) == Some(Insert(table, values))
    ensures Consecutive(Placeholders(InsertText(table, order)), 1, |order|)
  {
    InsertParses(table, order);
    AllColumnsBind(NameItems(order), MarkItems(1, |order|), order, values, Values(values, order));
    PlainIndexes(MarkItems(1, |order|), 1);
  }

  lemma UpdateBinds<V>(table: string, values: map<string, V>, order: seq<string>, cs: seq<Condition<V>>)
    requires order != [] && Enumerates(order, values.Keys) && AllAccepted(cs)
    ensures var parsed := ParsedUpdate(table, AssignItems(order), CanonicalAll(WhereItems(cs, |order| + 1)));
            Bind(parsed, Values(values, order) + WhereArgs(cs)) == Some(Update(table, values, TestsOf(cs)))
  {
    var args := Values(values, order) + WhereArgs(cs);
    AllColumnsBind(AssignItems(order), AssignItems(order), order, values, args);
    TestsBind(cs, |order| + 1, args);
  }

  lemma UpdateNumbered<V>(table: string, order: seq<string>, cs: seq<Condition<V>>)
    ensures var parsed := ParsedUpdate(table, AssignItems(order), CanonicalAll(WhereItems(cs, |order| + 1)));
            Consecutive(Numbered(parsed), 1, |order| + |WhereArgs(cs)|)
  {
    var n := |order|;
    PlainIndexes(AssignItems(order), 1);
    CanonicalIndexes(WhereItems(cs, n + 1));
    WhereIndexes(cs, n + 1);
    ConsecutiveConcat(Indexes(AssignItems(order)), Indexes(WhereItems(cs, n + 1)), 1);
  }

  lemma ParsedMeans<V>(sql: string, parsed: Parsed, args: seq<V>)
    requires ParseStatement(sql) == Some(parsed)
    ensures Meaning(sql, args) == Bind(parsed, args) && Placeholders(sql) == Numbered(parsed)
  {
  }

  lemma UpdateMeans<V>(table: string, values: map<string, V>, order: seq<string>, cs: seq<Condition<V>>)
    requires order != [] && Enumerates(order, values.Keys) && cs != [] && AllAccepted(cs)
    ensures Meaning(UpdateText(table, order, cs), Values(values, order) + WhereArgs(cs)) ==
            Some(Update(table, values, TestsOf(cs)))
    ensures Consecutive(Placeholders(UpdateText(table, order, cs)), 1, |order| + |WhereArgs(cs)|)
  {
    UpdateParses(table, order, cs);
    UpdateBinds(table, values, order, cs);
    UpdateNumbered(table, order, cs);
    var parsed := ParsedUpdate(table, AssignItems(order), CanonicalAll(WhereItems(cs, |order| + 1)));
    ParsedMeans(UpdateText(table, order, cs), parsed, Values(values, order) + WhereArgs(cs));
  }

  lemma DeleteMeans<V>(table: string, cs: seq<Condition<V>>)
    requires cs != [] && AllAccepted(cs)
    ensures Meaning(DeleteText(table, cs), WhereArgs(cs)) == Some(Delete(table, TestsOf(cs)))
    ensures Consecutive(Placeholders(DeleteText(table, cs)), 1, |WhereArgs(cs)|)
  {
    DeleteParses(table, cs);
    TestsBind(cs, 1, WhereArgs(cs));
    CanonicalIndexes(WhereItems(cs, 1));
    WhereIndexes(cs, 1);
  }
}
