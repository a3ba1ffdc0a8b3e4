/**
 The statements the data handlers print, and a reader for them: delimited
 identifiers as in section 5.2 of ISO/IEC 9075-2, numbered placeholders and
 the WHERE conditions the API accepts.
 */
module SqlText {
  import opened Prelude
  import opened Text

  // ---------- Quoting ----------

  /** strings.ReplaceAll of a quote by two */
  function Double(s: string, q: char): string
    decreases |s|
  {
    if s == "" then "" else (if s[0] == q then [q, q] else [s[0]]) + Double(s[1..], q)
  }

  function QuoteIdent(name: string): string {
    "\"" + Double(name, '"') + "\""
  }

  function QuoteLiteral(s: string): string {
    "'" + Double(s, '\'') + "'"
  }

  /** After an opening quote: the text up to the closing one, and what follows it. */
  function Unquote(s: string, q: char): (r: Option<(string, string)>)
    ensures r.Some? ==> |r.value.1| < |s|
    decreases |s|
  {
    if s == "" then None
    else if s[0] == q && (|s| == 1 || s[1] != q) then Some(("", s[1..]))
    else
      match Unquote(s[if s[0] == q then 2 else 1..], q)
      case Some((t, rest)) => Some(([s[0]] + t, rest))
      case None => None
  }

  /** A quoted identifier at the head of the text. */
  function ReadIdent(s: string): (r: Option<(string, string)>)
    ensures r.Some? ==> |r.value.1| < |s|
  {
    if s != "" && s[0] == '"' then Unquote(s[1..], '"') else None
  }

  lemma {:induction false} UnquoteDoubled(s: string, q: char, rest: string)
    requires rest == "" || rest[0] != q
    ensures Unquote(Double(s, q) + [q] + rest, q) == Some((s, rest))
    decreases |s|
  {
    var t := Double(s, q) + [q] + rest;
    if s == "" {
      assert t == [q] + rest;
      assert t[1..] == rest;
    } else {
      UnquoteDoubled(s[1..], q, rest);
      var head := if s[0] == q then [q, q] else [s[0]];
      assert t == head + (Double(s[1..], q) + [q] + rest);
      assert t[|head|..] == Double(s[1..], q) + [q] + rest;
      assert [s[0]] + s[1..] == s;
    }
  }

  /** Any name at all, quotes included, survives quoting. */
  lemma IdentReads(name: string, rest: string)
    requires rest == "" || rest[0] != '"'
    ensures ReadIdent(QuoteIdent(name) + rest) == Some((name, rest))
  {
    UnquoteDoubled(name, '"', rest);
    assert (QuoteIdent(name) + rest)[1..] == Double(name, '"') + ['"'] + rest;
  }

  /** And so does any string literal. */
  lemma LiteralReads(s: string, rest: string)
    requires rest == "" || rest[0] != '\''
    ensures (QuoteLiteral(s) + rest)[0] == '\'' && Unquote((QuoteLiteral(s) + rest)[1..], '\'') == Some((s, rest))
  {
    UnquoteDoubled(s, '\'', rest);
    assert (QuoteLiteral(s) + rest)[1..] == Double(s, '\'') + ['\''] + rest;
  }

  lemma {:induction false} DoubleAppend(a: string, b: string, q: char)
    ensures Double(a + b, q) == Double(a, q) + Double(b, q)
    ensures Double([q], q) == [q, q]
    decreases |a|
  {
    if a == "" {
      assert a + b == b;
    } else {
      assert (a + b)[1..] == a[1..] + b;
      DoubleAppend(a[1..], b, q);
    }
  }

  lemma {:induction false} DoublePlain(a: string, q: char)
    requires q !in a
    ensures Double(a, q) == a
    decreases |a|
  {
    if a != "" {
      DoublePlain(a[1..], q);
      assert [a[0]] + a[1..] == a;
    }
  }

  lemma DoubledOnce(a: string, b: string, q: char)
    requires q !in a && q !in b
    ensures Double(a, q) == a && Double(a + [q] + b, q) == a + [q, q] + b
  {
    DoubleAppend(a + [q], b, q);
    DoubleAppend(a, [q], q);
    DoublePlain(a, q);
    DoublePlain(b, q);
    assert a + [q, q] + b == (a + [q, q]) + b;
  }

  /** Names and literals as they stand in a statement. */
  lemma QuotedTexts(a: string, b: string)
    ensures '"' !in a && '"' !in b ==>
              QuoteIdent(a) == "\"" + a + "\"" && QuoteIdent(a + "\"" + b) == "\"" + (a + "\"\"" + b) + "\""
    ensures '\'' !in a && '\'' !in b ==>
              QuoteLiteral(a) == "'" + a + "'" && QuoteLiteral(a + "'" + b) == "'" + (a + "''" + b) + "'"
  {
    if '"' !in a && '"' !in b { DoubledOnce(a, b, '"'); }
    if '\'' !in a && '\'' !in b { DoubledOnce(a, b, '\''); }
  }

  // ---------- Numbers ----------

  function DigitChar(d: nat): char
    requires d < 10
  {
    '0' + d as char
  }

  function Decimal(n: nat): string {
    if n < 10 then [DigitChar(n)] else Decimal(n / 10) + [DigitChar(n % 10)]
  }

  function ReadDigits(s: string, acc: nat): (r: (nat, string))
    ensures |r.1| <= |s|
    decreases |s|
  {
    if s != "" && IsDigit(s[0]) then ReadDigits(s[1..], 10 * acc + (s[0] - '0') as nat) else (acc, s)
  }

  lemma {:induction false} DecimalReads(n: nat, rest: string)
    ensures ReadDigits(Decimal(n) + rest, 0) == ReadDigits(rest, n)
    ensures Decimal(n) != "" && IsDigit(Decimal(n)[0])
    decreases n
  {
    if n < 10 {
      assert ([DigitChar(n)] + rest)[1..] == rest;
    } else {
      var last := [DigitChar(n % 10)];
      DecimalReads(n / 10, last + rest);
      assert Decimal(n) + rest == Decimal(n / 10) + (last + rest);
      assert (last + rest)[1..] == rest;
      DecimalReads(n / 10, "");
    }
  }

  // ---------- List items ----------

  const OPERATORS := ["=", "!=", ">", "<", ">=", "<=", "LIKE"]

  function UpperChar(c: char): char {
    if 'a' <= c <= 'z' then c - 'a' + 'A' else c
  }

  /** strings.ToUpper on ASCII text */
  function Upper(s: string): (r: string)
    ensures |r| == |s|
  {
    seq(|s|, i requires 0 <= i < |s| => UpperChar(s[i]))
  }

  predicate IsOperator(op: string) {
    Upper(op) in OPERATORS
  }

  datatype Item =
    | Name(column: string)
    | Mark(index: nat)
    | Assign(column: string, index: nat)
    | Compare(column: string, op: string, index: nat)
    | IsNull(column: string)
    | IsNotNull(column: string)

  datatype Kind = Names | Marks | Assigns | Conditions

  function KindOf(item: Item): Kind {
    match item
    case Name(_) => Names
    case Mark(_) => Marks
    case Assign(_, _) => Assigns
    case _ => Conditions
  }

  function PrintItem(item: Item): string {
    match item
    case Name(c) => QuoteIdent(c)
    case Mark(n) => "$" + Decimal(n)
    case Assign(c, n) => QuoteIdent(c) + " = $" + Decimal(n)
    case Compare(c, op, n) => QuoteIdent(c) + " " + op + " $" + Decimal(n)
    case IsNull(c) => QuoteIdent(c) + " IS NULL"
    case IsNotNull(c) => QuoteIdent(c) + " IS NOT NULL"
  }

  /** Keywords read in upper case. */
  function Canonical(item: Item): Item {
    match item
    case Compare(c, op, n) => Compare(c, Upper(op), n)
    case _ => item
  }

  function ReadMark(s: string): (r: Option<(nat, string)>)
    ensures r.Some? ==> |r.value.1| < |s|
  {
    if |s| > 1 && s[0] == '$' && IsDigit(s[1]) then Some(ReadDigits(s[1..], 0)) else None
  }

  function Word(s: string): (r: string)
    ensures r <= s && ' ' !in r
  {
    if s == "" || s[0] == ' ' then "" else [s[0]] + Word(s[1..])
  }

  function ReadCondition(column: string, s: string): (r: Option<(Item, string)>)
    ensures r.Some? ==> |r.value.1| <= |s|
  {
    if HasPrefix(s, " IS NULL") then Some((IsNull(column), s[8..]))
    else if HasPrefix(s, " IS NOT NULL") then Some((IsNotNull(column), s[12..]))
    else if s != "" && s[0] == ' ' then
      var op := Word(s[1..]);
      var rest := s[1 + |op|..];
      if IsOperator(op) && rest != "" then
        match ReadMark(rest[1..])
        case Some((n, after)) => Some((Compare(column, Upper(op), n), after))
        case None => None
      else None
    else None
  }

  function ReadItem(kind: Kind, s: string): (r: Option<(Item, string)>)
    ensures r.Some? ==> |r.value.1| < |s|
  {
    if kind == Marks then
      match ReadMark(s)
      case Some((n, rest)) => Some((Mark(n), rest))
      case None => None
    else
      match ReadIdent(s)
      case None => None
      case Some((c, rest)) =>
        match kind
        case Names => Some((Name(c), rest))
        case Assigns =>
          if HasPrefix(rest, " = ") then
            match ReadMark(rest[3..])
            case Some((n, after)) => Some((Assign(c, n), after))
            case None => None
          else None
        case _ => ReadCondition(c, rest)
  }

  /** What may follow an item without running into it. */
  predicate Ends(rest: string) {
    rest == "" || (rest[0] in {',', ')', ' '})
  }

  ghost predicate Printable(item: Item) {
    item.Compare? ==> IsOperator(item.op)
  }

  lemma MarkReads(n: nat, rest: string)
    requires Ends(rest)
    ensures ReadMark("$" + Decimal(n) + rest) == Some((n, rest))
  {
    DecimalReads(n, rest);
    assert ("$" + Decimal(n) + rest)[1..] == Decimal(n) + rest;
  }

  lemma {:induction false} WordReads(w: string, rest: string)
    requires ' ' !in w && rest != "" && rest[0] == ' '
    ensures Word(w + rest) == w
    decreases |w|
  {
    if w != "" {
      assert (w + rest)[1..] == w[1..] + rest;
      WordReads(w[1..], rest);
    }
  }

  lemma OperatorShape(op: string)
    requires IsOperator(op)
    ensures ' ' !in op && op != "" && UpperChar(op[0]) != 'I'
  {
    forall i | 0 <= i < |op|
      ensures op[i] != ' '
    {
      assert UpperChar(op[i]) == Upper(op)[i];
    }
    assert UpperChar(op[0]) == Upper(op)[0];
  }

  lemma ComparisonReads(c: string, op: string, n: nat, rest: string)
    requires IsOperator(op) && Ends(rest)
    ensures ReadCondition(c, " " + op + " $" + Decimal(n) + rest) == Some((Compare(c, Upper(op), n), rest))
  {
    var mark := "$" + Decimal(n) + rest;
    MarkReads(n, rest);
    assert (" " + mark)[1..] == mark;
    OperatorReads(c, op, " " + mark, n, rest);
    OperatorConcat(op, Decimal(n), rest);
  }

  lemma OperatorReads(c: string, op: string, tail: string, n: nat, rest: string)
    requires IsOperator(op) && tail != "" && tail[0] == ' ' && ReadMark(tail[1..]) == Some((n, rest))
    ensures ReadCondition(c, " " + (op + tail)) == Some((Compare(c, Upper(op), n), rest))
  {
    OperatorShape(op);
    var s := " " + (op + tail);
    assert s[1..] == op + tail && s[1 + |op|..] == tail;
    WordReads(op, tail);
    assert s[1] == op[0];
  }

  lemma OperatorConcat(op: string, digits: string, rest: string)
    ensures " " + op + " $" + digits + rest == " " + (op + (" " + ("$" + digits + rest)))
  {
  }

  lemma NullTestsRead(c: string, rest: string)
    ensures ReadCondition(c, " IS NULL" + rest) == Some((IsNull(c), rest))
    ensures ReadCondition(c, " IS NOT NULL" + rest) == Some((IsNotNull(c), rest))
  {
    var s := " IS NULL" + rest;
    assert HasPrefix(s, " IS NULL") && s[8..] == rest;
    var t := " IS NOT NULL" + rest;
    assert t[5] == 'O' && HasPrefix(t, " IS NOT NULL") && t[12..] == rest;
  }

  lemma AssignReads(c: string, n: nat, rest: string)
    requires Ends(rest)
    ensures ReadItem(Assigns, QuoteIdent(c) + " = $" + Decimal(n) + rest) == Some((Assign(c, n), rest))
  {
    var mark := "$" + Decimal(n) + rest;
    var tail := " = " + mark;
    assert QuoteIdent(c) + " = $" + Decimal(n) + rest == QuoteIdent(c) + tail;
    IdentReads(c, tail);
    assert HasPrefix(tail, " = ") && tail[3..] == mark;
    MarkReads(n, rest);
  }

  lemma ConditionReads(c: string, test: string, item: Item, rest: string)
    requires test != "" && test[0] == ' '
    requires ReadCondition(c, test + rest) == Some((item, rest))
    ensures ReadItem(Conditions, QuoteIdent(c) + test + rest) == Some((item, rest))
  {
    assert QuoteIdent(c) + test + rest == QuoteIdent(c) + (test + rest);
    IdentReads(c, test + rest);
  }

  /** The text reads as the item, whatever follows. */
  ghost predicate Reads(kind: Kind, text: string, item: Item) {
    forall rest :: Ends(rest) ==> ReadItem(kind, text + rest) == Some((item, rest))
  }

  lemma SimpleItemReads(item: Item)
    requires item.Name? || item.Mark? || item.Assign?
    ensures Reads(KindOf(item), PrintItem(item), item)
  {
    forall rest | Ends(rest)
      ensures ReadItem(KindOf(item), PrintItem(item) + rest) == Some((item, rest))
    {
      if item.Name? {
        IdentReads(item.column, rest);
      } else if item.Mark? {
        MarkReads(item.index, rest);
      } else {
        AssignReads(item.column, item.index, rest);
      }
    }
  }

  lemma ComparisonItemReads(c: string, op: string, n: nat)
    requires IsOperator(op)
    ensures Reads(Conditions, QuoteIdent(c) + (" " + op + " $" + Decimal(n)), Compare(c, Upper(op), n))
  {
    var test := " " + op + " $" + Decimal(n);
    forall rest | Ends(rest)
      ensures ReadItem(Conditions, QuoteIdent(c) + test + rest) == Some((Compare(c, Upper(op), n), rest))
    {
      ComparisonReads(c, op, n, rest);
      ConditionReads(c, test, Compare(c, Upper(op), n), rest);
    }
  }

  lemma NullItemReads(c: string)
    ensures Reads(Conditions, QuoteIdent(c) + " IS NULL", IsNull(c))
    ensures Reads(Conditions, QuoteIdent(c) + " IS NOT NULL", IsNotNull(c))
  {
    forall rest | Ends(rest)
      ensures ReadItem(Conditions, QuoteIdent(c) + " IS NULL" + rest) == Some((IsNull(c), rest))
      ensures ReadItem(Conditions, QuoteIdent(c) + " IS NOT NULL" + rest) == Some((IsNotNull(c), rest))
    {
      NullTestsRead(c, rest);
      ConditionReads(c, " IS NULL", IsNull(c), rest);
      ConditionReads(c, " IS NOT NULL", IsNotNull(c), rest);
    }
  }

  lemma ItemReads(item: Item)
    requires Printable(item)
    ensures Reads(KindOf(item), PrintItem(item), Canonical(item))
  {
    match item
    case Compare(c, op, n) =>
      ComparisonItemReads(c, op, n);
      assert PrintItem(item) == QuoteIdent(c) + (" " + op + " $" + Decimal(n));
    case IsNull(c) => NullItemReads(c);
    case IsNotNull(c) => NullItemReads(c);
    case _ => SimpleItemReads(item);
  }

  // ---------- Lists ----------

  function PrintItems(items: seq<Item>): (r: seq<string>)
    ensures |r| == |items|
    ensures forall i :: 0 <= i < |r| ==> r[i] == PrintItem(items[i])
  {
    seq(|items|, i requires 0 <= i < |items| => PrintItem(items[i]))
  }

  function PrintList(items: seq<Item>, sep: string): string {
    Join(PrintItems(items), sep)
  }

  function ReadList(kind: Kind, sep: string, s: string): Option<(seq<Item>, string)>
    decreases |s|
  {
    match ReadItem(kind, s)
    case None => None
    case Some((item, rest)) =>
      if HasPrefix(rest, sep) then
        match ReadList(kind, sep, rest[|sep|..])
        case Some((items, after)) => Some(([item] + items, after))
        case None => None
      else Some(([item], rest))
  }

  function CanonicalAll(items: seq<Item>): (r: seq<Item>)
    ensures |r| == |items|
    ensures forall i :: 0 <= i < |r| ==> r[i] == Canonical(items[i])
  {
    seq(|items|, i requires 0 <= i < |items| => Canonical(items[i]))
  }

  ghost predicate PrintableList(items: seq<Item>, kind: Kind) {
    items != [] && forall i :: 0 <= i < |items| ==> Printable(items[i]) && KindOf(items[i]) == kind
  }

  lemma JoinStep(texts: seq<string>, sep: string, rest: string)
    requires |texts| > 1
    ensures Join(texts, sep) + rest == texts[0] + (sep + (Join(texts[1..], sep) + rest))
  {
  }

  lemma EndReads(kind: Kind, text: string, item: Item, sep: string, rest: string)
    requires Reads(kind, text, item) && Ends(rest) && !HasPrefix(rest, sep)
    ensures ReadList(kind, sep, text + rest) == Some(([item], rest))
  {
  }

  lemma StepReads(kind: Kind, text: string, item: Item, sep: string, tail: string, items: seq<Item>, rest: string)
    requires Reads(kind, text, item) && sep != "" && Ends(sep)
    requires ReadList(kind, sep, tail) == Some((items, rest))
    ensures ReadList(kind, sep, text + (sep + tail)) == Some(([item] + items, rest))
  {
    assert Ends(sep + tail);
    assert ReadItem(kind, text + (sep + tail)) == Some((item, sep + tail));
    assert (sep + tail)[|sep|..] == tail;
  }

  lemma {:induction false} JoinReads(kind: Kind, texts: seq<string>, items: seq<Item>, sep: string, rest: string)
    requires |texts| == |items| > 0 && forall i :: 0 <= i < |items| ==> Reads(kind, texts[i], items[i])
    requires sep != "" && Ends(sep) && Ends(rest) && !HasPrefix(rest, sep)
    ensures ReadList(kind, sep, Join(texts, sep) + rest) == Some((items, rest))
    decreases |items|
  {
    if |items| == 1 {
      EndReads(kind, texts[0], items[0], sep, rest);
      assert [items[0]] == items;
    } else {
      JoinStep(texts, sep, rest);
      JoinReads(kind, texts[1..], items[1..], sep, rest);
      StepReads(kind, texts[0], items[0], sep, Join(texts[1..], sep) + rest, items[1..], rest);
      assert [items[0]] + items[1..] == items;
    }
  }

  lemma ListReads(items: seq<Item>, kind: Kind, sep: string, rest: string)
    requires PrintableList(items, kind)
    requires sep != "" && Ends(sep) && Ends(rest) && !HasPrefix(rest, sep)
    ensures ReadList(kind, sep, PrintList(items, sep) + rest) == Some((CanonicalAll(items), rest))
  {
    forall i | 0 <= i < |items|
      ensures Reads(kind, PrintItems(items)[i], CanonicalAll(items)[i])
    {
      ItemReads(items[i]);
    }
    JoinReads(kind, PrintItems(items), CanonicalAll(items), sep, rest);
  }
}
