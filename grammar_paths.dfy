/** What the capability interfaces guarantee about whole chains of calls. */
module GrammarPaths {
  import opened Wrappers
  import opened Grammar

  /** Running a chain in two pieces is running it at once. */
  lemma {:induction false} RunAppend(s: State, a: seq<Call>, b: seq<Call>)
    ensures Run(s, a + b) == (match Run(s, a) case None => None case Some(t) => Run(t, b))
    decreases |a|
  {
    if |a| == 0 {
      assert a + b == b;
    } else {
      assert (a + b)[0] == a[0];
      assert (a + b)[1..] == a[1..] + b;
      match Next(s, a[0]) {
        case None =>
        case Some(t) => RunAppend(t, a[1..], b);
      }
    }
  }

  /** In a chain that runs, the i-th call is declared on the state the first i
      calls reach, and the rest of the chain runs on from where it leads. */
  lemma Step(s: State, calls: seq<Call>, i: nat)
    requires Run(s, calls).Some?
    requires i < |calls|
    ensures Run(s, calls[..i]).Some?
    ensures Next(Run(s, calls[..i]).value, calls[i]) == Run(s, calls[..i + 1])
    ensures Run(s, calls[..i + 1]).Some?
    ensures Run(Run(s, calls[..i + 1]).value, calls[i + 1..]) == Run(s, calls)
  {
    assert calls == calls[..i] + calls[i..];
    RunAppend(s, calls[..i], calls[i..]);
    assert calls[..i + 1] == calls[..i] + [calls[i]];
    RunAppend(s, calls[..i], [calls[i]]);
    assert calls == calls[..i + 1] + calls[i + 1..];
    RunAppend(s, calls[..i + 1], calls[i + 1..]);
  }

  /** HAVING exists only on the GROUP BY interface, so in every chain from the
      start a Having call comes right after a GroupBy call. */
  lemma HavingOnlyAfterGroupBy(calls: seq<Call>, i: nat)
    requires Run(Start, calls).Some?
    requires i < |calls| && calls[i] == Having
    ensures 0 < i && calls[i - 1] == GroupBy
  {
    Step(Start, calls, i);
    var u := Run(Start, calls[..i]).value;
    OnlyGroupByOffersHaving(u);
    if i > 0 {
      Step(Start, calls, i - 1);
      assert calls[..i - 1 + 1] == calls[..i];
      OnlyGroupByEntersGroupBy(Run(Start, calls[..i - 1]).value, calls[i - 1]);
    }
  }

  lemma OnlyGroupByOffersHaving(s: State)
    requires Next(s, Having).Some?
    ensures s == SelectGroupByStatement
  {
  }

  lemma OnlyGroupByEntersGroupBy(s: State, c: Call)
    requires Next(s, c) == Some(SelectGroupByStatement)
    ensures c == GroupBy
  {
  }

  /** The call alone decides the state each of these members leads to. */
  lemma EntryTargets(s: State, c: Call)
    requires Next(s, c).Some?
    ensures c == Join ==> Next(s, c) == Some(SelectJoinStatement)
    ensures c == InsertInto ==> Next(s, c) == Some(InsertStatement)
    ensures c == Update ==> Next(s, c) == Some(UpdateStatement)
    ensures c == WithOutputParameter ==> Next(s, c) == Some(StoredProcedureOutputParameterStatement)
  {
  }

  /** The JOIN interface has no execution member and offers only On. */
  lemma {:induction false} JoinStateNeedsOn(rest: seq<Call>, t: State)
    requires Run(SelectJoinStatement, rest) == Some(t) && Executable(t)
    ensures |rest| > 0 && IsOn(rest[0])
  {
  }

  /** A chain from the start that ends in a state able to run, and calls Join,
      calls On immediately after it. */
  lemma JoinMustBeFollowedByOn(calls: seq<Call>, t: State, i: nat)
    requires Run(Start, calls) == Some(t) && Executable(t)
    requires i < |calls| && calls[i] == Join
    ensures i + 1 < |calls| && IsOn(calls[i + 1])
  {
    Step(Start, calls, i);
    EntryTargets(Run(Start, calls[..i]).value, calls[i]);
    JoinStateNeedsOn(calls[i + 1..], t);
    assert calls[i + 1..][0] == calls[i + 1];
  }

  /** The INSERT interface cannot run and offers only Columns and Values, so
      a runnable chain from it starts with one of them. This holds whatever
      the column-list interface offers. */
  lemma {:induction false} InsertStateNeedsColumnsOrValues(rest: seq<Call>, t: State)
    requires Run(InsertStatement, rest) == Some(t) && Executable(t)
    ensures |rest| > 0 && (rest[0] == Columns || rest[0] == Values)
  {
  }

  /** A runnable chain that calls InsertInto calls Columns or Values right after it. */
  lemma InsertIntoIsFollowedByColumnsOrValues(calls: seq<Call>, t: State, i: nat)
    requires Run(Start, calls) == Some(t) && Executable(t)
    requires i < |calls| && calls[i] == InsertInto
    ensures i + 1 < |calls| && (calls[i + 1] == Columns || calls[i + 1] == Values)
  {
    Step(Start, calls, i);
    EntryTargets(Run(Start, calls[..i]).value, calls[i]);
    InsertStateNeedsColumnsOrValues(calls[i + 1..], t);
    assert calls[i + 1..][0] == calls[i + 1];
  }

  /** Without a column list, a runnable chain from the INSERT interface starts with Values. */
  lemma InsertStateNeedsValues(rest: seq<Call>, t: State)
    requires Run(InsertStatement, rest) == Some(t) && Executable(t)
    requires Columns !in rest
    ensures |rest| > 0 && rest[0] == Values
  {
    InsertStateNeedsColumnsOrValues(rest, t);
  }

  /** An INSERT without a column list cannot run before Values: a runnable
      chain without Columns that calls InsertInto calls Values right after it. */
  lemma InsertRunsOnlyAfterValues(calls: seq<Call>, t: State, i: nat)
    requires Run(Start, calls) == Some(t) && Executable(t)
    requires Columns !in calls
    requires i < |calls| && calls[i] == InsertInto
    ensures i + 1 < |calls| && calls[i + 1] == Values
  {
    InsertIntoIsFollowedByColumnsOrValues(calls, t, i);
  }

  /** An UPDATE cannot run before Set: a runnable chain that calls Update calls
      Set (the dictionary overload) after it. */
  lemma UpdateRunsOnlyAfterSet(calls: seq<Call>, t: State, i: nat)
    requires Run(Start, calls) == Some(t) && Executable(t)
    requires i < |calls| && calls[i] == Update
    ensures SetDictionary in calls[i + 1..]
  {
    Step(Start, calls, i);
    EntryTargets(Run(Start, calls[..i]).value, calls[i]);
    UpdateStateNeedsSet(calls[i + 1..], t);
  }

  /** The UPDATE interface has no execution member and offers only Set. */
  lemma {:induction false} UpdateStateNeedsSet(rest: seq<Call>, t: State)
    requires Run(UpdateStatement, rest) == Some(t) && Executable(t)
    ensures |rest| > 0 && rest[0] == SetDictionary
  {
  }

  /** The output-parameter interface offers only more output parameters. */
  lemma {:induction false} OutputStateIsClosed(rest: seq<Call>)
    requires Run(StoredProcedureOutputParameterStatement, rest).Some?
    ensures forall k :: 0 <= k < |rest| ==> rest[k] == WithOutputParameter
    decreases |rest|
  {
    if |rest| > 0 {
      OutputStateIsClosed(rest[1..]);
      assert forall k :: 1 <= k < |rest| ==> rest[k] == rest[1..][k - 1];
    }
  }

  /** Once an output parameter is declared, no input parameter can be added. */
  lemma NoInputParameterAfterOutput(calls: seq<Call>, i: nat, j: nat)
    requires Run(Start, calls).Some?
    requires i < j < |calls| && calls[i] == WithOutputParameter
    ensures !IsInputParameter(calls[j])
  {
    Step(Start, calls, i);
    EntryTargets(Run(Start, calls[..i]).value, calls[i]);
    OutputStateIsClosed(calls[i + 1..]);
    assert calls[j] == calls[i + 1..][j - i - 1];
  }

  /** Clauses that a statement may contain at most once. */
  datatype Clause =
    | EntryClause      // Select, SelectAll, InsertInto, Update, DeleteFrom, StoreProcedure
    | DistinctClause | TopClause | FromClause | JoinClause | OnClause | WhereClause
    | GroupByClause | HavingClause | OrderByClause | DirectionClause
    | ColumnsClause | ValuesClause | SetClause

  function ClauseOf(c: Call): Option<Clause>
  {
    match c
    case Select | SelectAll | InsertInto | Update | DeleteFrom | StoreProcedure => Some(EntryClause)
    case Distinct => Some(DistinctClause)
    case Top => Some(TopClause)
    case From => Some(FromClause)
    case Join => Some(JoinClause)
    case On | OnWithDictionary | OnWithObject => Some(OnClause)
    case Where | WhereWithDictionary | WhereWithObject => Some(WhereClause)
    case GroupBy => Some(GroupByClause)
    case Having => Some(HavingClause)
    case OrderBy => Some(OrderByClause)
    case Ascending | Descending => Some(DirectionClause)
    case Columns => Some(ColumnsClause)
    case Values => Some(ValuesClause)
    case SetDictionary => Some(SetClause)
    case _ => None
  }

  /** How far along its statement a state is. No transition raises it. */
  function Level(s: State): nat
  {
    match s
    case Start => 20
    case SelectStatement => 19
    case SelectDistinctStatement => 18
    case SelectTopStatement => 17
    case SelectFromStatement => 16
    case SelectFromWithNoLockStatement => 15
    case SelectJoinStatement => 14
    case SelectJoinOnStatement => 13
    case SelectJoinOnWithNoLockStatement => 12
    case SelectWhereStatement => 11
    case SelectGroupByStatement => 10
    case SelectGroupByHavingStatement => 9
    case SelectOrderByStatement => 8
    case SelectOrderByAscendingDescendingStatement => 7
    case InsertStatement => 19
    case InsertColumnsStatement => 18
    case InsertValuesStatement => 18
    case UpdateStatement => 19
    case UpdateSetStatement => 18
    case DeleteStatement => 18
    case NonQueryWhereStatement => 0
    case StoredProcedureStatement => 19
    case StoredProcedureParameterStatement => 18
    case StoredProcedureOutputParameterStatement => 17
  }

  /** Every call of a clause starts at or above this level and ends below it. */
  function Threshold(k: Clause): nat
  {
    match k
    case EntryClause => 20
    case DistinctClause => 19
    case TopClause => 18
    case FromClause => 17
    case JoinClause => 15
    case OnClause => 14
    case WhereClause => 12
    case GroupByClause => 11
    case HavingClause => 10
    case OrderByClause => 9
    case DirectionClause => 8
    case ColumnsClause => 19
    case ValuesClause => 19
    case SetClause => 19
  }

  lemma LevelNeverRises(s: State, c: Call)
    requires Next(s, c).Some?
    ensures Level(Next(s, c).value) <= Level(s)
  {
  }

  /** A clause is offered only at or above its threshold... */
  lemma ClauseNeedsThreshold(s: State, c: Call)
    requires Next(s, c).Some? && ClauseOf(c).Some?
    ensures Threshold(ClauseOf(c).value) <= Level(s)
  {
  }

  /** ...and every call of it lands below the threshold. */
  lemma ClauseLandsBelowThreshold(s: State, c: Call)
    requires Next(s, c).Some? && ClauseOf(c).Some?
    ensures Level(Next(s, c).value) < Threshold(ClauseOf(c).value)
  {
    if Level(s) >= 17 {
      HighClauseLandsBelowThreshold(s, c);
    } else {
      LowClauseLandsBelowThreshold(s, c);
    }
  }

  lemma HighClauseLandsBelowThreshold(s: State, c: Call)
    requires Next(s, c).Some? && ClauseOf(c).Some? && Level(s) >= 17
    ensures Level(Next(s, c).value) < Threshold(ClauseOf(c).value)
  {
  }

  lemma LowClauseLandsBelowThreshold(s: State, c: Call)
    requires Next(s, c).Some? && ClauseOf(c).Some? && Level(s) < 17
    ensures Level(Next(s, c).value) < Threshold(ClauseOf(c).value)
  {
  }

  function CountClause(calls: seq<Call>, k: Clause): nat
  {
    if |calls| == 0 then 0
    else (if ClauseOf(calls[0]) == Some(k) then 1 else 0) + CountClause(calls[1..], k)
  }

  /** Below a clause's threshold the clause is no longer available; at or
      above it, it can be used once. */
  lemma {:induction false} ClauseAtMostOnceFrom(s: State, calls: seq<Call>, k: Clause)
    requires Run(s, calls).Some?
    ensures CountClause(calls, k) <= if Level(s) >= Threshold(k) then 1 else 0
    decreases |calls|
  {
    if |calls| > 0 {
      var t := Next(s, calls[0]).value;
      LevelNeverRises(s, calls[0]);
      if ClauseOf(calls[0]).Some? {
        ClauseNeedsThreshold(s, calls[0]);
        ClauseLandsBelowThreshold(s, calls[0]);
      }
      ClauseAtMostOnceFrom(t, calls[1..], k);
    }
  }

  /** Every chain from the start builds one statement and uses each clause at
      most once: one entry call, at most one DISTINCT, TOP, FROM, JOIN, ON,
      WHERE, GROUP BY, HAVING, ORDER BY, ASC/DESC, column list, VALUES and SET. */
  lemma EachClauseAtMostOnce(calls: seq<Call>, k: Clause)
    requires Run(Start, calls).Some?
    ensures CountClause(calls, k) <= 1
  {
    ClauseAtMostOnceFrom(Start, calls, k);
  }
}
