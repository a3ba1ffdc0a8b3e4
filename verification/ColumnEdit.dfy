/**
 The edit-column dialog: the ALTER statements it emits, as text, and the table
 they leave behind when the server runs them in order.
 */
module ColumnEdit {
  import opened Prelude
  import opened Text
  import opened SqlText
  import opened ColumnTypes

  datatype Column = Column(typ: string, nullable: bool, default: Option<string>)

  type Table = map<string, Column>

  // ---------- Statements ----------

  datatype Change =
    | RenameTo(name: string)
    | SetType(typ: string)
    | DropNotNull
    | SetNotNull
    | SetDefault(expr: string)
    | DropDefault

  datatype Alter = Alter(table: string, column: string, change: Change)

  function PrintChange(c: Change): string {
    match c
    case RenameTo(name) => " TO " + QuoteIdent(name)
    case SetType(typ) => " TYPE " + typ
    case DropNotNull => " DROP NOT NULL"
    case SetNotNull => " SET NOT NULL"
    case SetDefault(expr) => " SET DEFAULT " + expr
    case DropDefault => " DROP DEFAULT"
  }

  function Verb(c: Change): string {
    if c.RenameTo? then " RENAME COLUMN " else " ALTER COLUMN "
  }

  function PrintAlter(a: Alter): string {
    "ALTER TABLE " + (QuoteIdent(a.table) + (Verb(a.change) + (QuoteIdent(a.column) + PrintChange(a.change))))
  }

  function ReadRename(s: string): Option<Change> {
    if HasPrefix(s, " TO ") then
      match ReadIdent(s[4..])
      case Some((name, rest)) => if rest == "" then Some(RenameTo(name)) else None
      case None => None
    else None
  }

  function ReadChange(s: string): Option<Change> {
    if HasPrefix(s, " TYPE ") then Some(SetType(s[6..]))
    else if s == " DROP NOT NULL" then Some(DropNotNull)
    else if s == " SET NOT NULL" then Some(SetNotNull)
    else if HasPrefix(s, " SET DEFAULT ") then Some(SetDefault(s[13..]))
    else if s == " DROP DEFAULT" then Some(DropDefault)
    else None
  }

  /** A verb, the column, and the change that follows. */
  function ReadAction(s: string): Option<(string, Change)> {
    if HasPrefix(s, " RENAME COLUMN ") then
      match ReadIdent(s[15..])
      case Some((c, rest)) => (match ReadRename(rest) case Some(change) => Some((c, change)) case None => None)
      case None => None
    else if HasPrefix(s, " ALTER COLUMN ") then
      match ReadIdent(s[14..])
      case Some((c, rest)) => (match ReadChange(rest) case Some(change) => Some((c, change)) case None => None)
      case None => None
    else None
  }

  function ReadAlter(s: string): Option<Alter> {
    if HasPrefix(s, "ALTER TABLE ") then
      match ReadIdent(s[12..])
      case Some((t, rest)) => (match ReadAction(rest) case Some((c, change)) => Some(Alter(t, c, change)) case None => None)
      case None => None
    else None
  }

  lemma ChangeReads(c: Change)
    requires !c.RenameTo?
    ensures ReadChange(PrintChange(c)) == Some(c)
  {
    var s := PrintChange(c);
    match c
    case SetType(typ) => assert s[6..] == typ;
    case SetDefault(expr) =>
      assert s[13..] == expr;
      assert s[5] == 'D' && s[1] == 'S';
    case DropNotNull => assert s[1] == 'D';
    case SetNotNull => assert s[1] == 'S';
    case DropDefault => assert s[1] == 'D' && s[6] == 'D';
  }

  lemma RenameReads(name: string)
    ensures ReadRename(" TO " + QuoteIdent(name)) == Some(RenameTo(name))
  {
    assert (" TO " + QuoteIdent(name))[4..] == QuoteIdent(name);
    IdentReads(name, "");
    assert QuoteIdent(name) + "" == QuoteIdent(name);
  }

  lemma ActionReads(column: string, c: Change)
    ensures ReadAction(Verb(c) + (QuoteIdent(column) + PrintChange(c))) == Some((column, c))
  {
    var rest := QuoteIdent(column) + PrintChange(c);
    var s := Verb(c) + rest;
    assert PrintChange(c)[0] == ' ';
    IdentReads(column, PrintChange(c));
    if c.RenameTo? {
      assert s[15..] == rest;
      RenameReads(c.name);
    } else {
      assert s[14..] == rest && s[1] == 'A';
      ChangeReads(c);
    }
  }

  /** Every emitted statement reads back, whatever quotes the names contain. */
  lemma AlterReads(a: Alter)
    ensures ReadAlter(PrintAlter(a)) == Some(a)
  {
    var action := Verb(a.change) + (QuoteIdent(a.column) + PrintChange(a.change));
    assert PrintAlter(a)[12..] == QuoteIdent(a.table) + action;
    assert action[0] == ' ';
    IdentReads(a.table, action);
    ActionReads(a.column, a.change);
  }

  /** The statements, word by word. */
  lemma AlterTexts(table: string, column: string, name: string, text: string)
    ensures var t, c := QuoteIdent(table), QuoteIdent(column);
            && PrintAlter(Alter(table, column, RenameTo(name))) ==
               "ALTER TABLE " + t + " RENAME COLUMN " + c + " TO " + QuoteIdent(name)
            && PrintAlter(Alter(table, column, SetType(text))) == "ALTER TABLE " + t + " ALTER COLUMN " + c + " TYPE " + text
            && PrintAlter(Alter(table, column, DropNotNull)) == "ALTER TABLE " + t + " ALTER COLUMN " + c + " DROP NOT NULL"
            && PrintAlter(Alter(table, column, SetNotNull)) == "ALTER TABLE " + t + " ALTER COLUMN " + c + " SET NOT NULL"
            && PrintAlter(Alter(table, column, SetDefault(text))) ==
               "ALTER TABLE " + t + " ALTER COLUMN " + c + " SET DEFAULT " + text
            && PrintAlter(Alter(table, column, DropDefault)) == "ALTER TABLE " + t + " ALTER COLUMN " + c + " DROP DEFAULT"
  {
    var t, c := QuoteIdent(table), QuoteIdent(column);
    ConcatThree("ALTER TABLE ", t, " RENAME COLUMN ", c, " TO ", QuoteIdent(name));
    ConcatThree("ALTER TABLE ", t, " ALTER COLUMN ", c, " TYPE ", text);
    ConcatThree("ALTER TABLE ", t, " ALTER COLUMN ", c, " DROP NOT NULL", "");
    ConcatThree("ALTER TABLE ", t, " ALTER COLUMN ", c, " SET NOT NULL", "");
    ConcatThree("ALTER TABLE ", t, " ALTER COLUMN ", c, " SET DEFAULT ", text);
    ConcatThree("ALTER TABLE ", t, " ALTER COLUMN ", c, " DROP DEFAULT", "");
  }

  lemma ConcatThree(a: string, t: string, b: string, c: string, d: string, e: string)
    ensures a + (t + (b + (c + (d + e)))) == a + t + b + c + d + e
    ensures e == "" ==> d + e == d && a + t + b + c + d + e == a + t + b + c + d
  {
  }

  // ---------- The server ----------

  function ApplyChange(t: Table, column: string, c: Change): Option<Table> {
    if column !in t then None
    else
      var col := t[column];
      match c
      case RenameTo(name) => if name in t then None else Some((t - {column})[name := col])
      case SetType(typ) => Some(t[column := col.(typ := typ)])
      case DropNotNull => Some(t[column := col.(nullable := true)])
      case SetNotNull => Some(t[column := col.(nullable := false)])
      case SetDefault(expr) => Some(t[column := col.(default := Some(expr))])
      case DropDefault => Some(t[column := col.(default := None)])
  }

  /** The statements against one table, one after another; an error stops the run. */
  function RunPlan(name: string, t: Table, stmts: seq<string>): Option<Table>
    decreases |stmts|
  {
    if stmts == [] then Some(t)
    else
      match ReadAlter(stmts[0])
      case None => None
      case Some(a) =>
        if a.table != name then None
        else match ApplyChange(t, a.column, a.change)
          case Some(next) => RunPlan(name, next, stmts[1..])
          case None => None
  }

  // ---------- The dialog ----------

  /** The form's fields; `parts` are the type, length, precision and scale inputs. */
  datatype Form = Form(name: string, parts: TypeParts, nullable: bool, default: string)

  function DefaultText(d: Option<string>): string {
    if d == None then "" else d.value
  }

  /** The form as the dialog opens it on a column. */
  function Open(name: string, c: Column): Form {
    Form(name, ParseTypeParams(c.typ), c.nullable, DefaultText(c.default))
  }

  function Renaming(name: string, f: Form): seq<(string, Change)> {
    if f.name != name then [(name, RenameTo(f.name))] else []
  }

  function Retyping(c: Column, f: Form): seq<(string, Change)> {
    if BuildTypeString(f.parts) != c.typ then [(f.name, SetType(BuildTypeString(f.parts)))] else []
  }

  function Renulling(c: Column, f: Form): seq<(string, Change)> {
    if f.nullable != c.nullable then [(f.name, if f.nullable then DropNotNull else SetNotNull)] else []
  }

  function Redefaulting(c: Column, f: Form): seq<(string, Change)> {
    if f.default != DefaultText(c.default) then
      [(f.name, if f.default != "" then SetDefault(f.default) else DropDefault)]
    else []
  }

  function Changes(name: string, c: Column, f: Form): seq<(string, Change)> {
    Renaming(name, f) + Retyping(c, f) + Renulling(c, f) + Redefaulting(c, f)
  }

  function Statements(table: string, changes: seq<(string, Change)>): (r: seq<string>)
    ensures |r| == |changes|
    ensures forall i :: 0 <= i < |r| ==> r[i] == PrintAlter(Alter(table, changes[i].0, changes[i].1))
  {
    seq(|changes|, i requires 0 <= i < |changes| => PrintAlter(Alter(table, changes[i].0, changes[i].1)))
  }

  lemma StatementsSnoc(table: string, changes: seq<(string, Change)>, change: (string, Change))
    ensures Statements(table, changes + [change]) ==
            Statements(table, changes) + [PrintAlter(Alter(table, change.0, change.1))]
  {
  }

  method Push(stmts: seq<string>, table: string, column: string, change: Change, ghost changes: seq<(string, Change)>)
    returns (out: seq<string>)
    requires stmts == Statements(table, changes)
    ensures out == Statements(table, changes + [(column, change)])
  {
    StatementsSnoc(table, changes, (column, change));
    return stmts + [PrintAlter(Alter(table, column, change))];
  }

  /** The save button: push what differs, then run it. */
  method EditMutation(table: string, name: string, column: Column, f: Form) returns (stmts: seq<string>)
    ensures stmts == Statements(table, Changes(name, column, f))
  {
    stmts := [];
    if f.name != name {
      stmts := Push(stmts, table, name, RenameTo(f.name), []);
    }
    ghost var changes := Renaming(name, f);
    var typeStr := BuildTypeString(f.parts);
    if typeStr != column.typ {
      stmts := Push(stmts, table, f.name, SetType(typeStr), changes);
    }
    changes := changes + Retyping(column, f);
    stmts := PushNullability(stmts, table, column, f, changes);
    stmts := PushDefault(stmts, table, column, f, changes + Renulling(column, f));
  }

  method PushNullability(stmts: seq<string>, table: string, column: Column, f: Form, ghost changes: seq<(string, Change)>)
    returns (out: seq<string>)
    requires stmts == Statements(table, changes)
    ensures out == Statements(table, changes + Renulling(column, f))
  {
    out := stmts;
    if f.nullable && !column.nullable {
      out := Push(stmts, table, f.name, DropNotNull, changes);
    } else if !f.nullable && column.nullable {
      out := Push(stmts, table, f.name, SetNotNull, changes);
    }
  }

  method PushDefault(stmts: seq<string>, table: string, column: Column, f: Form, ghost changes: seq<(string, Change)>)
    returns (out: seq<string>)
    requires stmts == Statements(table, changes)
    ensures out == Statements(table, changes + Redefaulting(column, f))
  {
    out := stmts;
    if f.default != DefaultText(column.default) {
      if f.default != "" {
        out := Push(stmts, table, f.name, SetDefault(f.default), changes);
      } else {
        out := Push(stmts, table, f.name, DropDefault, changes);
      }
    }
  }

  // ---------- Results ----------

  function ApplyAll(t: Table, changes: seq<(string, Change)>): Option<Table>
    decreases |changes|
  {
    if changes == [] then Some(t)
    else match ApplyChange(t, changes[0].0, changes[0].1)
      case Some(next) => ApplyAll(next, changes[1..])
      case None => None
  }

  lemma {:induction false} RunIsApply(table: string, t: Table, changes: seq<(string, Change)>)
    ensures RunPlan(table, t, Statements(table, changes)) == ApplyAll(t, changes)
    decreases |changes|
  {
    if changes != [] {
      var a := Alter(table, changes[0].0, changes[0].1);
      AlterReads(a);
      assert Statements(table, changes)[1..] == Statements(table, changes[1..]);
      match ApplyChange(t, a.column, a.change)
      case Some(next) => RunIsApply(table, next, changes[1..]);
      case None =>
    }
  }

  lemma {:induction false} ApplyAllAppend(t: Table, a: seq<(string, Change)>, b: seq<(string, Change)>)
    ensures ApplyAll(t, a + b) ==
            match ApplyAll(t, a)
            case Some(mid) => ApplyAll(mid, b)
            case None => None
    decreases |a|
  {
    if a == [] {
      assert a + b == b;
    } else {
      assert (a + b)[1..] == a[1..] + b;
      match ApplyChange(t, a[0].0, a[0].1)
      case Some(next) => ApplyAllAppend(next, a[1..], b);
      case None =>
    }
  }

  function Target(f: Form): Column {
    Column(BuildTypeString(f.parts), f.nullable, if f.default == "" then None else Some(f.default))
  }

  lemma RenameStep(t: Table, name: string, to: string)
    requires name in t && (to == name || to !in t)
    ensures ApplyAll(t, if to != name then [(name, RenameTo(to))] else []) == Some((t - {name})[to := t[name]])
  {
    if to == name {
      assert (t - {name})[name := t[name]] == t;
    } else {
      assert [(name, RenameTo(to))][1..] == [];
    }
  }

  /** At most one change to a column that is there. */
  lemma OneStep(rest: Table, name: string, c: Column, change: Change, needed: bool, after: Column)
    requires !change.RenameTo?
    requires needed ==> ApplyChange(rest[name := c], name, change) == Some(rest[name := c][name := after])
    requires !needed ==> after == c
    ensures ApplyAll(rest[name := c], if needed then [(name, change)] else []) == Some(rest[name := after])
  {
    assert rest[name := c][name := after] == rest[name := after];
    if needed { assert [(name, change)][1..] == []; }
  }

  lemma ApplyFour(t: Table, a: seq<(string, Change)>, b: seq<(string, Change)>, c: seq<(string, Change)>, d: seq<(string, Change)>,
                  t1: Table, t2: Table, t3: Table, t4: Table)
    requires ApplyAll(t, a) == Some(t1) && ApplyAll(t1, b) == Some(t2) && ApplyAll(t2, c) == Some(t3) && ApplyAll(t3, d) == Some(t4)
    ensures ApplyAll(t, a + b + c + d) == Some(t4)
  {
    ApplyAllAppend(t, a + b + c, d);
    ApplyAllAppend(t, a + b, c);
    ApplyAllAppend(t, a, b);
  }

  lemma ChangesReachTarget(t: Table, name: string, f: Form)
    requires name in t && (f.name == name || f.name !in t)
    requires t[name].default != Some("")
    ensures ApplyAll(t, Changes(name, t[name], f)) == Some((t - {name})[f.name := Target(f)])
  {
    var c := t[name];
    var rest := t - {name};
    var typ := BuildTypeString(f.parts);
    var nullness := if f.nullable then DropNotNull else SetNotNull;
    var defaulting := if f.default != "" then SetDefault(f.default) else DropDefault;
    var c2 := c.(typ := typ);
    var c3 := c2.(nullable := f.nullable);
    RenameStep(t, name, f.name);
    OneStep(rest, f.name, c, SetType(typ), typ != c.typ, c2);
    OneStep(rest, f.name, c2, nullness, f.nullable != c.nullable, c3);
    OneStep(rest, f.name, c3, defaulting, f.default != DefaultText(c.default), Target(f));
    ApplyFour(t, Renaming(name, f), Retyping(c, f), Renulling(c, f), Redefaulting(c, f),
              rest[f.name := c], rest[f.name := c2], rest[f.name := c3], rest[f.name := Target(f)]);
  }

  /** The column is what the form describes: its type by base and parameters, a blank default as none. */
  ghost predicate Describes(f: Form, c: Column) {
    && IsTypeText(c.typ, f.parts)
    && c.nullable == f.nullable
    && c.default == if f.default == "" then None else Some(f.default)
  }

  lemma TargetIsDescribed(f: Form, c: Column)
    ensures Describes(f, c) <==> c == Target(f)
  {
    BuiltTextIs(f.parts);
    if IsTypeText(c.typ, f.parts) { TypeTextIsUnique(c.typ, BuildTypeString(f.parts), f.parts); }
  }

  /**
   Saving the form turns the column into the one the form describes, under its new name, and leaves
   every other column alone, whether or not the new name contains quotes or keywords.
   */
  lemma PlanReachesTarget(table: string, t: Table, name: string, f: Form)
    requires name in t && (f.name == name || f.name !in t)
    requires t[name].default != Some("")
    ensures var end := RunPlan(table, t, Statements(table, Changes(name, t[name], f)));
            && end.Some? && f.name in end.value && Describes(f, end.value[f.name])
            && end.value - {f.name} == t - {name, f.name}
  {
    RunIsApply(table, t, Changes(name, t[name], f));
    ChangesReachTarget(t, name, f);
    TargetIsDescribed(f, Target(f));
  }

  /** Nothing is sent exactly when the column already is what the form describes. */
  lemma PlanEmptyIff(table: string, name: string, c: Column, f: Form)
    requires c.default != Some("")
    ensures Statements(table, Changes(name, c, f)) == [] <==> f.name == name && Describes(f, c)
  {
    assert Statements(table, Changes(name, c, f)) == [] <==> Changes(name, c, f) == [];
    TargetIsDescribed(f, c);
  }

  /** One statement for each of the four things that differ. */
  lemma PlanIsMinimal(table: string, name: string, c: Column, f: Form)
    requires c.default != Some("")
    ensures |Statements(table, Changes(name, c, f))| ==
            (if f.name == name then 0 else 1) + (if IsTypeText(c.typ, f.parts) then 0 else 1)
            + (if f.nullable == c.nullable then 0 else 1)
            + (if c.default == (if f.default == "" then None else Some(f.default)) then 0 else 1)
  {
    BuiltTextIs(f.parts);
    if IsTypeText(c.typ, f.parts) { TypeTextIsUnique(c.typ, BuildTypeString(f.parts), f.parts); }
  }

  /** Saving a column without touching the form sends nothing exactly when its type is in the form the dialog writes, or takes no parameters. */
  lemma UneditedSaveIsSilentIff(table: string, name: string, c: Column)
    ensures Statements(table, Changes(name, c, Open(name, c))) == [] <==> !IsParametrized(c.typ) || IsWritten(c.typ)
  {
    NormalizeFixedIff(c.typ);
    var changes := Changes(name, c, Open(name, c));
    assert |Statements(table, changes)| == |changes|;
  }
}
