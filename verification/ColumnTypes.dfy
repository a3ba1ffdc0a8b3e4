/** Column type strings: building one from its parts and taking one apart again. */
module ColumnTypes {
  import opened Prelude
  import opened Text
  import opened SqlText

  datatype TypeParts = TypeParts(base: string, length: Option<nat>, precision: Option<nat>, scale: Option<nat>)

  /** `${base}(${params})` */
  function Applied(base: string, params: string): string {
    base + ("(" + (params + ")"))
  }

  function BuildTypeString(t: TypeParts): string {
    if t.length.Some? && (t.base == "VARCHAR" || t.base == "CHAR") then
      Applied(t.base, Decimal(t.length.value))
    else if t.precision.Some? && t.base == "NUMERIC" then
      if t.scale.Some? && t.scale.value > 0 then
        Applied("NUMERIC", Decimal(t.precision.value) + ("," + Decimal(t.scale.value)))
      else
        Applied("NUMERIC", Decimal(t.precision.value))
    else
      t.base
  }

  /** The longest prefix of word characters. */
  function WordPrefix(s: string): (r: string)
    ensures r <= s
  {
    if s == "" || !IsWordChar(s[0]) then "" else [s[0]] + WordPrefix(s[1..])
  }

  datatype Match = Match(base: string, first: Option<nat>, second: Option<nat>)

  /** What follows the word: nothing, or one or two numbers in parentheses. */
  function MatchParams(base: string, s: string): Option<Match> {
    if s == "" then Some(Match(base, None, None))
    else if |s| > 1 && s[0] == '(' && IsDigit(s[1]) then
      var (n, rest) := ReadDigits(s[1..], 0);
      if rest == ")" then Some(Match(base, Some(n), None))
      else if |rest| > 1 && rest[0] == ',' && IsDigit(rest[1]) then
        var (m, end) := ReadDigits(rest[1..], 0);
        if end == ")" then Some(Match(base, Some(n), Some(m))) else None
      else None
    else None
  }

  /** ^(\w+)(?:\((\d+)(?:,(\d+))?\))?$ */
  function MatchType(s: string): Option<Match> {
    var base := WordPrefix(s);
    if base == "" then None else MatchParams(base, s[|base|..])
  }

  function ParseTypeParams(t: string): TypeParts {
    match MatchType(t)
    case None => TypeParts(t, None, None, None)
    case Some(m) =>
      if m.base == "VARCHAR" || m.base == "CHAR" then TypeParts(m.base, m.first, None, None)
      else if m.base == "NUMERIC" then TypeParts(m.base, None, m.first, m.second)
      else TypeParts(t, None, None, None)
  }

  /** What the dialog makes of a type it shows without change. */
  function Normalize(t: string): string {
    BuildTypeString(ParseTypeParams(t))
  }

  lemma {:induction false} WordPrefixReads(w: string, rest: string)
    requires (forall i :: 0 <= i < |w| ==> IsWordChar(w[i])) && (rest == "" || !IsWordChar(rest[0]))
    ensures WordPrefix(w + rest) == w
    decreases |w|
  {
    if w == "" {
      assert w + rest == rest;
    } else {
      assert (w + rest)[1..] == w[1..] + rest;
      WordPrefixReads(w[1..], rest);
    }
  }

  lemma OneParamMatches(base: string, n: nat)
    ensures MatchParams(base, "(" + (Decimal(n) + ")")) == Some(Match(base, Some(n), None))
  {
    var s := "(" + (Decimal(n) + ")");
    DecimalReads(n, ")");
    assert s[1..] == Decimal(n) + ")" && s[1] == Decimal(n)[0];
  }

  lemma TwoParamsMatch(base: string, n: nat, m: nat)
    ensures MatchParams(base, "(" + (Decimal(n) + ("," + Decimal(m)) + ")")) == Some(Match(base, Some(n), Some(m)))
  {
    var end := Decimal(m) + ")";
    var tail := "," + end;
    var s := "(" + (Decimal(n) + ("," + Decimal(m)) + ")");
    assert s[1..] == Decimal(n) + tail && s[1] == Decimal(n)[0] by { DecimalReads(n, tail); }
    DecimalReads(n, tail);
    DecimalReads(m, ")");
    assert tail[1..] == end && tail[1] == Decimal(m)[0];
  }

  predicate IsWord(base: string) {
    base != "" && forall i :: 0 <= i < |base| ==> IsWordChar(base[i])
  }

  lemma BareMatches(base: string)
    requires IsWord(base)
    ensures MatchType(base) == Some(Match(base, None, None))
  {
    assert base + "" == base;
    WordPrefixReads(base, "");
  }

  lemma AppliedReads(base: string, n: nat, m: nat)
    requires IsWord(base)
    ensures MatchType(Applied(base, Decimal(n))) == Some(Match(base, Some(n), None))
    ensures MatchType(Applied(base, Decimal(n) + ("," + Decimal(m)))) == Some(Match(base, Some(n), Some(m)))
  {
    MatchSplits(base, "(" + (Decimal(n) + ")"));
    OneParamMatches(base, n);
    MatchSplits(base, "(" + (Decimal(n) + ("," + Decimal(m)) + ")"));
    TwoParamsMatch(base, n, m);
  }

  lemma MatchSplits(base: string, params: string)
    requires IsWord(base) && params != "" && params[0] == '('
    ensures MatchType(base + params) == MatchParams(base, params)
  {
    WordPrefixReads(base, params);
    assert (base + params)[|base|..] == params;
  }

  /** A length on VARCHAR or CHAR survives building and parsing; everything else is dropped. */
  lemma LengthReads(t: TypeParts)
    requires t.base == "VARCHAR" || t.base == "CHAR"
    ensures ParseTypeParams(BuildTypeString(t)) == TypeParts(t.base, t.length, None, None)
  {
    if t.length == None {
      BareMatches(t.base);
    } else {
      AppliedReads(t.base, t.length.value, 0);
    }
  }

  /** So do a precision and a positive scale on NUMERIC. */
  lemma PrecisionReads(t: TypeParts)
    requires t.base == "NUMERIC"
    ensures ParseTypeParams(BuildTypeString(t)) ==
            TypeParts(t.base, None, t.precision,
                      if t.precision.Some? && t.scale.Some? && t.scale.value > 0 then t.scale else None)
  {
    if t.precision == None {
      BareMatches(t.base);
    } else if t.scale.Some? && t.scale.value > 0 {
      AppliedReads(t.base, t.precision.value, t.scale.value);
    } else {
      AppliedReads(t.base, t.precision.value, 0);
    }
  }

  /** Normalizing twice is normalizing once, for every type string whatever. */
  lemma NormalizeIdempotent(t: string)
    ensures Normalize(Normalize(t)) == Normalize(t)
  {
    var p := ParseTypeParams(t);
    if p.base == "VARCHAR" || p.base == "CHAR" {
      LengthReads(p);
    } else if p.base == "NUMERIC" {
      PrecisionReads(p);
    } else {
      assert p.base == t;
    }
  }

  // ---------- The built text ----------

  /** The text of a type by its base and its parameters. */
  ghost predicate IsTypeText(text: string, t: TypeParts) {
    && (t.base == "VARCHAR" ==> text == if t.length == None then "VARCHAR" else "VARCHAR(" + Decimal(t.length.value) + ")")
    && (t.base == "CHAR" ==> text == if t.length == None then "CHAR" else "CHAR(" + Decimal(t.length.value) + ")")
    && (t.base == "NUMERIC" ==>
          && (t.precision == None ==> text == "NUMERIC")
          && (t.precision.Some? && (t.scale == None || t.scale.value == 0) ==> text == "NUMERIC(" + Decimal(t.precision.value) + ")")
          && (t.precision.Some? && t.scale.Some? && t.scale.value > 0 ==>
                text == "NUMERIC(" + Decimal(t.precision.value) + "," + Decimal(t.scale.value) + ")"))
    && (t.base !in {"VARCHAR", "CHAR", "NUMERIC"} ==> text == t.base)
  }

  lemma AppliedIs(base: string, open: string, params: string)
    requires open == base + "("
    ensures Applied(base, params) == open + params + ")"
  {
  }

  lemma AppliedPair(open: string, a: string, b: string)
    ensures open + (a + ("," + b)) + ")" == open + a + "," + b + ")"
  {
  }

  lemma OpenTexts()
    ensures "VARCHAR(" == "VARCHAR" + "(" && "CHAR(" == "CHAR" + "(" && "NUMERIC(" == "NUMERIC" + "("
  {
  }

  /** Only VARCHAR, CHAR and NUMERIC take parameters; every other type is its own text. */
  lemma BuiltTextIs(t: TypeParts)
    ensures IsTypeText(BuildTypeString(t), t)
  {
    OpenTexts();
    if t.length.Some? {
      AppliedIs("VARCHAR", "VARCHAR(", Decimal(t.length.value));
      AppliedIs("CHAR", "CHAR(", Decimal(t.length.value));
    }
    if t.precision.Some? {
      AppliedIs("NUMERIC", "NUMERIC(", Decimal(t.precision.value));
      if t.scale.Some? {
        var p, q := Decimal(t.precision.value), Decimal(t.scale.value);
        AppliedIs("NUMERIC", "NUMERIC(", p + ("," + q));
        AppliedPair("NUMERIC(", p, q);
      }
    }
  }

  /** The text is what its parts amount to. */
  lemma TypeTextIsUnique(a: string, b: string, t: TypeParts)
    requires IsTypeText(a, t) && IsTypeText(b, t)
    ensures a == b
  {
  }

  /** Parts that the pattern finds when it reads one of the three types with parameters. */
  ghost predicate IsParametrized(t: string) {
    MatchType(t).Some? && MatchType(t).value.base in {"VARCHAR", "CHAR", "NUMERIC"}
  }

  /** A text already in the form the dialog writes. */
  ghost predicate IsWritten(t: string) {
    exists p: TypeParts :: p.base in {"VARCHAR", "CHAR", "NUMERIC"} && IsTypeText(t, p)
  }

  /**
   The dialog leaves a type string alone exactly when it is none of the three types with parameters, or
   one of them as the dialog itself writes it: "VARCHAR(007)" becomes "VARCHAR(7)".
   */
  lemma NormalizeFixedIff(t: string)
    ensures Normalize(t) == t <==> !IsParametrized(t) || IsWritten(t)
  {
    var p := ParseTypeParams(t);
    BuiltTextIs(p);
    if IsParametrized(t) && IsWritten(t) {
      var q: TypeParts :| q.base in {"VARCHAR", "CHAR", "NUMERIC"} && IsTypeText(t, q);
      BuiltTextIs(q);
      TypeTextIsUnique(t, BuildTypeString(q), q);
      NormalizeWritten(q);
    }
  }

  lemma NormalizeWritten(q: TypeParts)
    requires q.base in {"VARCHAR", "CHAR", "NUMERIC"}
    ensures Normalize(BuildTypeString(q)) == BuildTypeString(q)
  {
    if q.base == "NUMERIC" { PrecisionReads(q); } else { LengthReads(q); }
  }
}
