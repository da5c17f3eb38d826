# FluentSQL statement builder, modelled in Dafny

FluentSQL is a fluent builder for SQL Server statements. There is one
mutable object, `FluentSqlBuilder`. A chain such as
`Connect(cs).Select("a").From("t").Where("x = 1")` builds the SQL text
clause by clause. The builder also prepares stored-procedure calls, with
input and output parameters. It keeps an optional connection and
transaction open between statements. A family of interfaces restricts which
member may follow which: every member returns the builder typed as the
interface of the next allowed step.

This project models four parts of that library:

- **Query-text assembler** (`builder.dfy`, module `Builder`). The class
  `FluentSqlBuilder` keeps the builder's fields. Its clause methods rewrite
  `query` and state the new text exactly, as a concatenation of the old text
  and one fragment. `Distinct` and `Top` replace the first `SELECT`.
  `Values` and `Set` build their literal lists in a loop and cut off the
  trailing `", "` with `String.Remove`. With no input, that cut throws
  `ArgumentOutOfRangeException`, and the model returns that error.
  `rendering.dfy` holds the join keyword switch, the value literals and the
  assignments. `strings.dfy` holds the .NET string operations the text
  depends on.
- **Grammar state machine** (`grammar.dfy`, `grammar_interfaces.dfy`,
  `grammar_paths.dfy`). Each interface is a `State`, and each member that
  returns an interface is a `Call`. `Next` is the transition table, and
  `Run` runs a whole chain. There is one lemma per interface, giving what
  it offers and what it does not. Further lemmas cover whole chains: HAVING
  only after GROUP BY, ON right after JOIN, COLUMNS or VALUES right after
  INSERT, UPDATE only with SET, no input parameter after an output
  parameter, and each clause at most once.
- **Stored-procedure parameter buffers** (`parameters.dfy`,
  `output_parameter.dfy`, `stored_procedure_result.dfy`). The input
  parameters are a map filled with `Dictionary.Add`, which throws on a
  duplicate. The output declarations are an ordered list. At execution
  every name is bound with an `@` marker. The output values are read back
  into a fresh dictionary. An output declared with two markers ("@@x") is
  stored as "@x" and is silently missing from that dictionary.
- **Transaction and dispose lifecycle** (`builder.dfy`). The connection
  (absent, closed, open), the transaction (none, active), `inTransaction`
  and `disposed` are fields. A ghost trace `ops` records every call the
  builder makes on a database object.

Some differences between the code and its design description are resolved
in favour of the code:

- **Inlined literals.** The code writes values into the SQL text as
  literals and never binds them as parameters. `Values` takes no column
  list, puts a space in front of the whole query, and does not escape
  quotes.
- **Older interface version.** The builder implements an older version of
  the interfaces. `Timeout`, `RollbackTransaction`, the dictionary and
  object overloads of `Where` and `On`, and `WithParameters(object)` are
  declared but have no builder code. They appear only as transitions.
- **WHERE and WITH (NOLOCK).** The UPDATE and DELETE `Where`
  (`FluentSqlBuilder.cs:657-661` and `682-686`) write the same text as the
  SELECT `Where`. The `WithNoLock` after `On` (`360-364`) writes the same
  text as the one after `From`. Each pair is one method here.

Exceptions are values. A member that can throw returns an `Outcome` or
`Result`, and its contract states both the error case and the normal case.
A method is not given a state precondition by its place in the chain. In
C# the same object stays reachable through older interface references, so
only the types restrict chains, and the grammar models them separately.

## Model

| member | source | states |
|---|---|---|
| Builder.FluentSqlBuilder.Connect | src/FluentSQL.Core/FluentSqlBuilder.cs:86-96 | a new builder holds the connection string; no query, procedure, timeout, connection or transaction; empty parameter buffers; not disposed |
| Builder.FluentSqlBuilder.SetTimeout | src/FluentSQL.Core/FluentSqlBuilder.cs:163-167 | the command timeout becomes the given seconds and nothing else changes |
| Builder.FluentSqlBuilder.BeginTransaction | src/FluentSQL.Core/FluentSqlBuilder.cs:176-194 | ends with an open connection, a live transaction and InTransaction true; creates a connection only when there is none, opens it only when closed, begins a transaction only when there is none (the trace shows exactly those calls); an Open that throws escapes with the connection created but closed and no transaction begun |
| Builder.FluentSqlBuilder.CommitTransaction | src/FluentSQL.Core/FluentSqlBuilder.cs:199-232 | commits a live transaction; a failed commit is rolled back and rethrown, or the rollback's exception escapes; in every case InTransaction ends false and both handles are disposed and dropped |
| Builder.FluentSqlBuilder.Dispose | src/FluentSQL.Core/FluentSqlBuilder.cs:102-151 | a second call changes nothing; the first rolls back and disposes a live transaction, closes an open connection, disposes it, drops both buffers and marks the builder disposed; a rollback that throws still disposes the transaction, then escapes before anything else happens; a Close that throws still disposes and drops the connection, then escapes with the buffers kept and the builder not marked disposed |
| Builder.FluentSqlBuilder.Execute | src/FluentSQL.Core/FluentSqlBuilder.cs:698-717 | inside a transaction it runs on the transaction's connection; otherwise it creates, opens, runs on and disposes a connection of its own; the builder's handles do not change |
| Builder.FluentSqlBuilder.Select | src/FluentSQL.Core/FluentSqlBuilder.cs:244-248 | the query becomes "SELECT " and the columns joined by ", "; no earlier text survives |
| Builder.FluentSqlBuilder.SelectAll | src/FluentSQL.Core/FluentSqlBuilder.cs:253-257 | the query becomes "SELECT *" |
| Builder.FluentSqlBuilder.Distinct | src/FluentSQL.Core/FluentSqlBuilder.cs:262-266 | a null query throws ArgumentNullException and stays null; otherwise the first "SELECT" becomes "SELECT DISTINCT", and a query starting with SELECT keeps the rest character for character |
| Builder.FluentSqlBuilder.Top | src/FluentSQL.Core/FluentSqlBuilder.cs:272-276 | a null query throws ArgumentNullException; otherwise the first "SELECT" becomes "SELECT TOP n" and the rest of a query starting with SELECT is kept |
| Builder.FluentSqlBuilder.From | src/FluentSQL.Core/FluentSqlBuilder.cs:282-297 | the old query is kept as a prefix, followed by " FROM table" and " alias" when an alias is given |
| Builder.FluentSqlBuilder.WithNoLock | src/FluentSQL.Core/FluentSqlBuilder.cs:302-306 | appends " WITH (NOLOCK)" to the old query |
| Builder.FluentSqlBuilder.Join | src/FluentSQL.Core/FluentSqlBuilder.cs:313-345 | appends " KEYWORD JOIN table[ alias]", the keyword chosen by the join kind |
| Builder.FluentSqlBuilder.On | src/FluentSQL.Core/FluentSqlBuilder.cs:351-355 | appends " ON condition" |
| Builder.FluentSqlBuilder.Where | src/FluentSQL.Core/FluentSqlBuilder.cs:370-374 | appends " WHERE condition" |
| Builder.FluentSqlBuilder.GroupBy | src/FluentSQL.Core/FluentSqlBuilder.cs:380-384 | appends " GROUP BY " and the columns joined by ", " |
| Builder.FluentSqlBuilder.Having | src/FluentSQL.Core/FluentSqlBuilder.cs:390-394 | appends " HAVING condition" |
| Builder.FluentSqlBuilder.OrderBy | src/FluentSQL.Core/FluentSqlBuilder.cs:400-404 | appends " ORDER BY " and the columns joined by ", " |
| Builder.FluentSqlBuilder.Ascending | src/FluentSQL.Core/FluentSqlBuilder.cs:409-413 | appends " ASC" |
| Builder.FluentSqlBuilder.Descending | src/FluentSQL.Core/FluentSqlBuilder.cs:418-422 | appends " DESC" |
| Builder.FluentSqlBuilder.InsertInto | src/FluentSQL.Core/FluentSqlBuilder.cs:550-554 | the query becomes "INSERT INTO table" |
| Builder.FluentSqlBuilder.Columns | src/FluentSQL.Core/FluentSqlBuilder.cs:560-564 | appends " (" and the columns joined by ", ", then ")" |
| Builder.FluentSqlBuilder.Values | src/FluentSQL.Core/FluentSqlBuilder.cs:570-596 | the loop's text, with its trailing ", " cut, is the value literals joined by ", "; the query becomes " " + old query + " VALUES (" + that + ")"; no values throws ArgumentOutOfRangeException and leaves the query as it was |
| Builder.FluentSqlBuilder.Update | src/FluentSQL.Core/FluentSqlBuilder.cs:606-610 | the query becomes "UPDATE table" |
| Builder.FluentSqlBuilder.Set | src/FluentSQL.Core/FluentSqlBuilder.cs:616-641 | appends " SET " and the assignments joined by ", "; no assignments throws ArgumentOutOfRangeException and leaves the query as it was |
| Builder.FluentSqlBuilder.SetAssignments | src/FluentSQL.Core/FluentSqlBuilder.cs:647-651 | appends " SET " and the given assignments joined by ", " |
| Builder.FluentSqlBuilder.DeleteFrom | src/FluentSQL.Core/FluentSqlBuilder.cs:672-676 | the query becomes "DELETE FROM table" |
| Builder.FluentSqlBuilder.StoreProcedure | src/FluentSQL.Core/FluentSqlBuilder.cs:760-766 | sets the procedure name and empties both buffers; after disposal the name is still set and clearing the dropped buffer throws NullReferenceException |
| Builder.FluentSqlBuilder.WithParameters | src/FluentSQL.Core/FluentSqlBuilder.cs:772-779 | the buffer and outcome are those of adding each entry in turn with Dictionary.Add (AddEach); after disposal a non-empty input throws NullReferenceException |
| Builder.FluentSqlBuilder.WithParameter | src/FluentSQL.Core/FluentSqlBuilder.cs:786-790 | a new name is added with its value; a present name throws the duplicate-key ArgumentException and leaves the buffer unchanged; after disposal NullReferenceException |
| Builder.FluentSqlBuilder.WithOutputParameters | src/FluentSQL.Core/FluentSqlBuilder.cs:796-800 | the declarations are appended in order after the existing ones |
| Builder.FluentSqlBuilder.WithOutputParameter | src/FluentSQL.Core/FluentSqlBuilder.cs:806-810 | the declaration is appended at the end |
| Builder.FluentSqlBuilder.WithNewOutputParameter | src/FluentSQL.Core/FluentSqlBuilder.cs:817-860 | a null name, or a builder already disposed, throws NullReferenceException and the buffer stays as it was; otherwise appends a declaration with the name stripped of one '@', and the given type, size, precision and scale |
| Builder.FluentSqlBuilder.BoundParameterNames | src/FluentSQL.Core/FluentSqlBuilder.cs:970-979 | the names the run binds are the bound input keys, plus the bound output names when outputs are bound; each starts with '@'; a disposed builder's dropped buffers throw NullReferenceException |
| Builder.FluentSqlBuilder.ReadBackOutputs | src/FluentSQL.Core/FluentSqlBuilder.cs:993-1002 | the loop's dictionary is ReadBack of the declared outputs filtered by the trimmed executed names, paired with the return value; a repeated kept name throws; the builder does not change |
| Parameters.AddEachKeepsEarlier | src/FluentSQL.Core/FluentSqlBuilder.cs:772-779 | adding entries never overwrites or drops an existing entry and adds no key other than the entries' |
| Parameters.AddEachSucceedsIff | src/FluentSQL.Core/FluentSqlBuilder.cs:772-779 | all entries are added exactly when no key repeats a present or earlier key; a failure is a duplicate-key error on one of the entries' keys |
| Parameters.AddEachHoldsEntries | src/FluentSQL.Core/FluentSqlBuilder.cs:772-779 | after a complete add the keys are the old keys plus the entries' keys, each entry under its own key |
| Parameters.BoundNameIsMarkedAndStable | src/FluentSQL.Core/FluentSqlBuilder.cs:875 | every bound name starts with '@' and binding twice is binding once |
| Parameters.BoundNameCollision | src/FluentSQL.Core/FluentSqlBuilder.cs:875 | two names bind to the same name exactly when they are equal or one is the other with a missing '@' added |
| Parameters.BoundNameOfStoredOutputName | src/FluentSQL.Core/FluentSqlBuilder.cs:975-979 | an output name stripped by OutputParameter binds like the given name exactly when that name does not start with "@@" |
| Parameters.StoredOutputNameIsReportedName | src/FluentSQL.Core/FluentSqlBuilder.cs:975-998 | binding a stored output name and removing the marker again gives the stored name, the key the read-back uses |
| Parameters.BoundNamesAreMarked | src/FluentSQL.Core/FluentSqlBuilder.cs:970-979 | every input and output name the builder binds starts with '@' |
| Parameters.BoundOutputsAreReadBack | src/FluentSQL.Core/FluentSqlBuilder.cs:970-1000 | when the command reports the bound names without their marker, the read-back completes for distinct stored names, holds only declared outputs, and holds every output whose declared name did not start with "@@" |
| Parameters.DoubleMarkedOutputIsNotReadBack | src/FluentSQL.Core/FluentSqlBuilder.cs:975-1000 | an output declared "@@x" is stored "@x", bound "@x", reported "x", and is missing from the read-back |
| Parameters.ReadBackSucceedsIff | src/FluentSQL.Core/FluentSqlBuilder.cs:993-1000 | the read-back completes exactly when no kept output name repeats; a failure is a duplicate-key error on a kept name |
| Parameters.ReadBackKeys | src/FluentSQL.Core/FluentSqlBuilder.cs:993-1000 | a completed read-back holds exactly the declared output names that pass the filter |
| Parameters.ReadBackValues | src/FluentSQL.Core/FluentSqlBuilder.cs:993-1000 | each read-back name holds the value looked up for it |
| Parameters.DeclaredOutputsAreReadBack | src/FluentSQL.Core/FluentSqlBuilder.cs:993-1000 | when every declared output is among the executed names and none repeats, the result holds exactly the declared names |
| Rendering.JoinKeywordRoundTrip | src/FluentSQL.Core/FluentSqlBuilder.cs:315-322 | each named join kind gets its own keyword, which reads back as that kind; any other value is written as INNER |
| Rendering.AssignmentUsesValueLiteral | src/FluentSQL.Core/FluentSqlBuilder.cs:619-637 | Set writes a value as Values does, and a string, char or DateTime assignment gets one extra leading space |
| Rendering.SelectKeywordRewrite | src/FluentSQL.Core/FluentSqlBuilder.cs:262-276 | replacing the first "SELECT" of a query starting with it rewrites the keyword and keeps the rest |
| Rendering.TopAfterDistinct | src/FluentSQL.Core/FluentSqlBuilder.cs:262-276 | Distinct then Top gives "SELECT TOP n DISTINCT" followed by the rest |
| Strings.ReplaceFirstSplices | src/FluentSQL.Core/FluentSqlBuilder.cs:264 | the single replacement hits exactly the leftmost occurrence and keeps everything before and after it |
| Strings.ReplaceFirstAbsent | src/FluentSQL.Core/FluentSqlBuilder.cs:264 | a query without "SELECT" is left as it is |
| Strings.IntToString | src/FluentSQL.Core/FluentSqlBuilder.cs:274 | the TOP count is written as a minus sign exactly for negative numbers, then decimal digits |
| Strings.NatToStringRoundTrip | src/FluentSQL.Core/FluentSqlBuilder.cs:274 | the decimal text of a count reads back as that count |
| Strings.RemoveTrailingSeparator | src/FluentSQL.Core/FluentSqlBuilder.cs:592 | cutting the last two characters off the loop's text gives the join; with no parts Remove throws ArgumentOutOfRangeException |
| Strings.TerminatedIsJoinThenSeparator | src/FluentSQL.Core/FluentSqlBuilder.cs:573-592 | the text a "part + separator" loop builds is the join followed by one separator |
| Strings.TrimIdempotent | src/FluentSQL.Core/FluentSqlBuilder.cs:995 | trimming a name twice is trimming it once |
| OutputParameters.StripMarkerRemovesOne | src/FluentSQL.Core/Entities/OutputParameter.cs:38 | a name starting with '@' is stored without it; any other name is stored unchanged |
| OutputParameters.StripMarkerKeepsSecondMarker | src/FluentSQL.Core/Entities/OutputParameter.cs:38 | only one marker goes: the stored name starts with '@' exactly when the given one starts with "@@" |
| OutputParameters.Create | src/FluentSQL.Core/Entities/OutputParameter.cs:78-85 | a null name throws NullReferenceException; otherwise the name is stored with at most one '@' removed, and the type, size, precision and scale are stored as given |
| OutputParameters.CreateTyped | src/FluentSQL.Core/Entities/OutputParameter.cs:36-40 | the general constructor with size, precision and scale null |
| OutputParameters.CreateSized | src/FluentSQL.Core/Entities/OutputParameter.cs:48-53 | the general constructor with only the size set |
| OutputParameters.CreateScaled | src/FluentSQL.Core/Entities/OutputParameter.cs:62-68 | the general constructor with precision and scale set and the size null |
| Interfaces.FluentSqlInterface | src/FluentSQL.Core/Interfaces/IFluentSql.cs:10-284 | SetTimeout stays; Select/SelectAll, InsertInto, Update, DeleteFrom, StoreProcedure lead to their states; no clause member; the transaction members exist only here; not runnable; Timeout and InTransaction readable |
| Interfaces.SelectStatementInterface | src/FluentSQL.Core/Interfaces/IFluentSqlSelectStatement.cs:6-38 | Top, Distinct and From only; runnable as a query; Query and Timeout readable |
| Interfaces.SelectDistinctInterface | src/FluentSQL.Core/Interfaces/IFluentSqlSelectDistinctStatement.cs:5-17 | Top and From only, no second Distinct; runnable only by ToDynamic and ToMappedObject |
| Interfaces.SelectTopInterface | src/FluentSQL.Core/Interfaces/IFluentSqlSelectTopStatement.cs:3-26 | From only; runnable |
| Interfaces.SelectFromInterface | src/FluentSQL.Core/Interfaces/IFluentSqlSelectFromStatement.cs:3-15 | WithNoLock, Join, Where, GroupBy, OrderBy only, no Having; runnable |
| Interfaces.SelectFromWithNoLockInterface | src/FluentSQL.Core/Interfaces/IFluentSqlSelectFromWithNoLockStatement.cs:5-57 | Join, the three Where overloads, GroupBy, OrderBy only, no second WithNoLock; runnable |
| Interfaces.SelectJoinInterface | src/FluentSQL.Core/Interfaces/IFluentSqlSelectJoinStatement.cs:5-25 | only the three On overloads; not runnable; no properties |
| Interfaces.SelectJoinOnInterface | src/FluentSQL.Core/Interfaces/IFluentSqlSelectJoinOnStatement.cs:3-13 | WithNoLock, Where, GroupBy, OrderBy only, no second Join; runnable |
| Interfaces.SelectJoinOnWithNoLockInterface | src/FluentSQL.Core/Interfaces/IFluentSqlSelectJoinOnWithNoLockStatement.cs:3-12 | Where, GroupBy, OrderBy only; runnable |
| Interfaces.SelectWhereInterface | src/FluentSQL.Core/Interfaces/IFluentSqlSelectWhereStatement.cs:3-25 | GroupBy and OrderBy only; runnable |
| Interfaces.SelectGroupByInterface | src/FluentSQL.Core/Interfaces/IFluentSqlSelectGroupByStatement.cs:3-10 | Having and OrderBy only; runnable |
| Interfaces.SelectGroupByHavingInterface | src/FluentSQL.Core/Interfaces/IFluentSqlSelectGroupByHavingStatement.cs:3-19 | OrderBy only; runnable |
| Interfaces.SelectOrderByInterface | src/FluentSQL.Core/Interfaces/IFluentSqlSelectOrderByStatement.cs:6-25 | Ascending and Descending only; runnable without a direction |
| Interfaces.SelectOrderByAscendingDescendingInterface | src/FluentSQL.Core/Interfaces/IFluentSqlSelectOrderByAscendingDescendingStatement.cs:6-16 | no member leads on; runnable; Query and Timeout readable |
| Interfaces.InsertInterface | src/FluentSQL.Core/Interfaces/IFluentSqlInsertStatement.cs:3-8 | Columns and Values only; not runnable; no properties |
| Interfaces.InsertValuesInterface | src/FluentSQL.Core/Interfaces/IFluentSqlInsertValuesStatement.cs:3-10 | nothing leads on; Execute only; Query and CommandTimeout readable |
| Interfaces.UpdateInterface | src/FluentSQL.Core/Interfaces/IFluentSqlUpdateStatement.cs:5-9 | only Set with a dictionary; the string-array Set is reachable from no interface; not runnable |
| Interfaces.UpdateSetInterface | src/FluentSQL.Core/Interfaces/IFluentSqlUpdateSetStatement.cs:3-12 | only Where; Execute straight away |
| Interfaces.DeleteInterface | src/FluentSQL.Core/Interfaces/IFluentSqlDeleteStatement.cs:3-12 | only Where; Execute straight away |
| Interfaces.NonQueryWhereInterface | src/FluentSQL.Core/Interfaces/IFluentSqlNonQueryWhereStatement.cs:3-10 | nothing leads on; Execute only |
| Interfaces.StoredProcedureInterface | src/FluentSQL.Core/Interfaces/IFluentSqlExecuteStoredProcedureStatement.cs:6-20 | input parameters lead to the parameter state, output parameters to the output state; runnable with plain results; Name and Timeout readable |
| Interfaces.StoredProcedureParameterInterface | src/FluentSQL.Core/Interfaces/IFluentSqlExecuteStoredProcedureParameterStatement.cs:9-77 | every input adder stays, output adders move on, nothing else; runnable with plain results |
| Interfaces.StoredProcedureOutputParameterInterface | src/FluentSQL.Core/Interfaces/IFluentSqlExecuteStoredProcedureOutputParameterStatement.cs:6-18 | only output adders, which stay; results come paired with output values |
| GrammarPaths.HavingOnlyAfterGroupBy | src/FluentSQL.Core/Interfaces/IFluentSqlSelectGroupByStatement.cs:3-10 | in every chain from the start, a Having call comes right after a GroupBy call |
| GrammarPaths.JoinStateNeedsOn | src/FluentSQL.Core/Interfaces/IFluentSqlSelectJoinStatement.cs:5-25 | from the JOIN state, a chain that reaches a runnable state starts with On |
| GrammarPaths.JoinMustBeFollowedByOn | src/FluentSQL.Core/Interfaces/IFluentSqlSelectJoinStatement.cs:5-25 | in a runnable chain, every Join is immediately followed by On |
| GrammarPaths.InsertStateNeedsColumnsOrValues | src/FluentSQL.Core/Interfaces/IFluentSqlInsertStatement.cs:3-8 | from the INSERT state, a chain that reaches a runnable state starts with Columns or Values, whatever follows Columns |
| GrammarPaths.InsertIntoIsFollowedByColumnsOrValues | src/FluentSQL.Core/Interfaces/IFluentSqlInsertStatement.cs:3-8 | in a runnable chain, InsertInto is immediately followed by Columns or Values |
| GrammarPaths.InsertStateNeedsValues | src/FluentSQL.Core/Interfaces/IFluentSqlInsertStatement.cs:3-8 | from the INSERT state, a runnable chain without Columns starts with Values |
| GrammarPaths.InsertRunsOnlyAfterValues | src/FluentSQL.Core/Interfaces/IFluentSqlInsertStatement.cs:3-8 | in a runnable chain without Columns, InsertInto is immediately followed by Values |
| GrammarPaths.UpdateStateNeedsSet | src/FluentSQL.Core/Interfaces/IFluentSqlUpdateStatement.cs:5-9 | from the UPDATE state, a chain that reaches a runnable state starts with Set |
| GrammarPaths.UpdateRunsOnlyAfterSet | src/FluentSQL.Core/Interfaces/IFluentSqlUpdateStatement.cs:5-9 | in a runnable chain, Update is followed later by the dictionary Set |
| GrammarPaths.OutputStateIsClosed | src/FluentSQL.Core/Interfaces/IFluentSqlExecuteStoredProcedureOutputParameterStatement.cs:6-18 | from the output state, every call that runs is WithOutputParameter |
| GrammarPaths.NoInputParameterAfterOutput | src/FluentSQL.Core/Interfaces/IFluentSqlExecuteStoredProcedureOutputParameterStatement.cs:6-18 | no input parameter is added anywhere after an output parameter |
| GrammarPaths.EachClauseAtMostOnce | src/FluentSQL.Core/Interfaces/IFluentSqlSelectJoinOnStatement.cs:3-13 | every chain from the start uses each clause at most once: one entry, at most one JOIN, ON, WHERE, DISTINCT, TOP, ASC/DESC, VALUES, SET and so on |

## Left out

- Execution bodies (`ToDynamic*`, `ToMappedObject*`, `Execute*`, `ExecuteCustom*` and the stored-procedure runs) are SqlConnection and Dapper I/O. Only `Execute`'s choice of connection and the read-back of output values are modelled.
- The async variants repeat the sync ones.
- Builder.FluentSqlBuilder.ReadBackOutputs: Dapper's `DynamicParameters` is a foreign library, so the executed parameter names and `Get<object>` are inputs (`executed`, `lookup`); `BoundOutputsAreReadBack` connects them to the bound names under the assumption that Dapper reports each bound name without its marker.
- Builder.FluentSqlBuilder.Execute: the statement's own effect is not modelled, and neither is a failure of `Open` or `Execute` inside it; only the order of calls on connection and transaction objects is recorded.
- Builder.FluentSqlBuilder.CommitTransaction: a `Dispose` of the transaction or connection that throws is not modelled; `Commit` and `Rollback` failures are.
- Builder.FluentSqlBuilder.BeginTransaction: a failure of `IDbConnection.BeginTransaction` itself is not modelled; a failing `Open` is.
- Builder.FluentSqlBuilder.Values: a DateTime's `yyyy-MM-dd hh:mm:ss.fff` text and the `ToString()` of any other object depend on the culture and on floating point, so each value carries its text as given.
- Builder.FluentSqlBuilder.Set: `Dictionary` enumeration order is not specified, so the assignments are a sequence in the order enumerated; the same holds for `WithParameters`.
- A null output-parameter name is modelled (`Create`, `WithNewOutputParameter`). Other null arguments are not: null column arrays, null dictionaries, null table names. C# interpolation of a null string would write "".
- Strings.IntToString: always writes '-' for a negative count, where .NET writes the current culture's `NumberFormatInfo.NegativeSign`; the invariant and most cultures use '-'.
- OutputParameters.StripMarker: `StartsWith("@")` is culture-sensitive in .NET; the model compares characters (ordinal), which agrees except for names whose first character the culture ignores (such as U+00AD or U+0000). There .NET sees the '@' behind that character and strips the ignored character instead of the '@', or binds such a name unchanged; the model keeps it and adds a marker. The same holds for `Create`, `BoundName`, `BoundNamesAreMarked` and `BoundParameterNames`.
- Members declared on the interfaces without builder code (`Timeout`, `RollbackTransaction`, `Where`/`On` with a dictionary or object, `WithParameters(object)`, the `*Single` terminals) are transitions only, with no text.
- `IFluentSqlInsertColumnsStatement` is not part of this model, so the column-list state has no outgoing transitions; a chain through `Columns` stops there.
- GrammarPaths.InsertRunsOnlyAfterValues: stated only for chains without Columns (as is `InsertStateNeedsValues`), because `IFluentSqlInsertColumnsStatement` is not part of this model; `InsertIntoIsFollowedByColumnsOrValues` holds whatever that interface allows.
- `src/FluentSQL.Core/Interfaces/IFluentSqlQuery.cs` is an older entry interface with the same entries as `IFluentSql`; it is not modelled separately.
- `GC.SuppressFinalize` and the `SqlConnection` constructor are runtime plumbing.
- The result's output dictionary is the very object the read-back filled, not a copy; values have no identity here, so that aliasing is not captured.
- `DbType` is carried as its Int32 value; its named members are not listed.
- A WITH (NOLOCK) on the FROM table and another after ON can both occur in one query; the clause count does not track WithNoLock.
- Two input names that bind to the same '@' name (`BoundNameCollision`) are accepted by the buffer; what Dapper then does with the second is not modelled.
