/** How the builder turns its arguments into SQL text: join keywords, value
    literals, assignments and the SELECT keyword rewrite of Distinct and Top. */
module Rendering {
  import opened Wrappers
  import opened Clr
  import opened JoinTypes
  import Strings

  /** The keyword switch of both Join overloads; an unnamed join kind falls
      back to INNER. */
  function JoinKeyword(j: JoinType): string
  {
    if j == Inner then "INNER"
    else if j == Left then "LEFT"
    else if j == Right then "RIGHT"
    else if j == FullOuter then "FULL OUTER"
    else "INNER"
  }

  /** The join kind a keyword stands for. */
  function ParseJoinKeyword(keyword: string): Option<JoinType>
  {
    if keyword == "INNER" then Some(Inner)
    else if keyword == "LEFT" then Some(Left)
    else if keyword == "RIGHT" then Some(Right)
    else if keyword == "FULL OUTER" then Some(FullOuter)
    else None
  }

  /** Every join kind is written as a keyword that reads back as that kind;
      an unnamed value reads back as Inner. So the four named kinds get four
      different keywords. */
  lemma JoinKeywordRoundTrip(j: JoinType)
    ensures ParseJoinKeyword(JoinKeyword(j)) == Some(if IsNamed(j) then j else Inner)
  {
  }

  /** " alias" after a table name, or nothing for the overload without one. */
  function AliasSuffix(alias: Option<string>): string
  {
    match alias
    case None => ""
    case Some(a) => " " + a
  }

  /** A value the builder puts between single quotes. */
  predicate IsQuoted(v: Value)
  {
    v.Str? || v.Chr? || v.Date?
  }

  /** How Values writes one value: NULL, the text between single quotes for a
      string, char or DateTime (quotes inside are not escaped), or the text of
      any other object as it is. */
  function ValueLiteral(v: Value): string
  {
    match v
    case Null => "NULL"
    case Str(s) => "'" + s + "'"
    case Chr(c) => "'" + [c] + "'"
    case Date(f) => "'" + f + "'"
    case Other(t) => t
  }

  function Literals(values: seq<Value>): (r: seq<string>)
    ensures |r| == |values|
  {
    seq(|values|, k requires 0 <= k < |values| => ValueLiteral(values[k]))
  }

  /** How Set writes one column assignment. */
  function Assignment(column: string, v: Value): string
  {
    match v
    case Null => column + " = NULL"
    case Str(_) => " " + column + " = " + ValueLiteral(v)
    case Chr(_) => " " + column + " = " + ValueLiteral(v)
    case Date(_) => " " + column + " = " + ValueLiteral(v)
    case Other(t) => column + " = " + t
  }

  /** Set writes a value exactly as Values does, but a quoted value also
      gets one extra space in front of its column name. */
  lemma AssignmentUsesValueLiteral(column: string, v: Value)
    ensures Assignment(column, v) == (if IsQuoted(v) then " " else "") + column + " = " + ValueLiteral(v)
  {
  }

  function Assignments(entries: seq<(string, Value)>): (r: seq<string>)
    ensures |r| == |entries|
  {
    seq(|entries|, k requires 0 <= k < |entries| => Assignment(entries[k].0, entries[k].1))
  }

  /** Replacing the first "SELECT" of a query that starts with it rewrites the
      keyword and keeps the rest character for character. */
  lemma SelectKeywordRewrite(rest: string, replacement: string)
    ensures Strings.ReplaceFirst("SELECT" + rest, "SELECT", replacement) == replacement + rest
  {
    var s := "SELECT" + rest;
    assert s[..6] == "SELECT";
    Strings.ReplaceFirstAtStart(s, "SELECT", replacement);
    assert s[6..] == rest;
  }

  /** Distinct and then Top both rewrite the leading keyword, so TOP lands
      before DISTINCT: "SELECT TOP n DISTINCT ...". */
  lemma {:induction false} TopAfterDistinct(rest: string, rows: int32)
    ensures Strings.ReplaceFirst(
              Strings.ReplaceFirst("SELECT" + rest, "SELECT", "SELECT DISTINCT"),
              "SELECT", "SELECT TOP " + Strings.IntToString(rows as int))
            == "SELECT TOP " + Strings.IntToString(rows as int) + " DISTINCT" + rest
  {
    SelectKeywordRewrite(rest, "SELECT DISTINCT");
    assert "SELECT DISTINCT" + rest == "SELECT" + (" DISTINCT" + rest);
    SelectKeywordRewrite(" DISTINCT" + rest, "SELECT TOP " + Strings.IntToString(rows as int));
  }
}
