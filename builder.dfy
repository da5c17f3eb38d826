/** FluentSqlBuilder: one mutable object that holds the SQL text being built,
    the stored procedure being prepared, and the connection and transaction
    it may keep open between statements. */
module Builder {
  import opened Wrappers
  import opened Clr
  import opened JoinTypes
  import opened Rendering
  import opened OutputParameters
  import opened StoredProcedureResults
  import opened Parameters
  import Strings

  /** What the builder knows of its own IDbConnection. */
  datatype Connection = Absent | Closed | Open

  /** Whether the builder holds an IDbTransaction. */
  datatype Transaction = NoTransaction | Active

  /** The builder's own connection, or one opened for a single statement. */
  datatype Handle = Own | Scoped

  /** The calls the builder makes on database objects, recorded in order. */
  datatype DbOp =
    | CreateConnection(h: Handle)
    | OpenConnection(h: Handle)
    | CloseConnection(h: Handle)
    | DisposeConnection(h: Handle)
    | BeginTx | CommitTx | RollbackTx | DisposeTx
    | ExecuteOn(h: Handle)

  class FluentSqlBuilder {
    const connectionString: string
    var commandTimeout: Option<int32>
    /** None until a statement is started: C# null, which string
        interpolation writes as "". */
    var query: Option<string>
    var spName: Option<string>
    var connection: Connection
    var transaction: Transaction
    var inTransaction: bool
    var disposed: bool
    /** None once the builder is disposed. */
    var spParameters: Option<map<string, Value>>
    var spOutputParameters: Option<seq<OutputParameter>>
    ghost var ops: seq<DbOp>

    /** The query as an interpolated string sees it. */
    function Text(): string
      reads this
    {
      if query.Some? then query.value else ""
    }

    /** A live transaction sits on the builder's open connection and is
        reported by InTransaction; the parameter buffers are gone exactly
        when the builder is disposed. */
    predicate Valid()
      reads this
    {
      && (transaction == Active ==> connection == Open && inTransaction)
      && (spParameters.None? <==> disposed)
      && (spOutputParameters.None? <==> disposed)
    }

    /** FluentSqlBuilder.Connect(connectionString) */
    constructor Connect(connectionString: string)
      ensures Valid()
      ensures this.connectionString == connectionString
      ensures commandTimeout.None? && query.None? && spName.None?
      ensures connection == Absent && transaction == NoTransaction && !inTransaction && !disposed
      ensures spParameters == Some(map[]) && spOutputParameters == Some([])
      ensures ops == []
    {
      this.connectionString := connectionString;
      commandTimeout := None;
      query := None;
      spName := None;
      connection := Absent;
      transaction := NoTransaction;
      inTransaction := false;
      disposed := false;
      spParameters := Some(map[]);
      spOutputParameters := Some([]);
      ops := [];
    }

    method SetTimeout(seconds: int32)
      modifies this`commandTimeout
      ensures commandTimeout == Some(seconds)
    {
      commandTimeout := Some(seconds);
    }

    // ---- Transactions and disposal ----

    /** Creates a connection only when there is none, opens it only when it
        is closed, begins a transaction only when there is none. When Open
        throws, the connection stays created but closed, no transaction is
        begun and the exception escapes. */
    method BeginTransaction(openFails: bool) returns (r: Outcome<Exception>)
      requires Valid()
      modifies this`connection, this`transaction, this`inTransaction, this`ops
      ensures Valid()
      ensures old(connection) != Open && openFails ==>
        && r == Fail(OpenFailed)
        && connection == Closed && transaction == old(transaction) && inTransaction == old(inTransaction)
        && ops == old(ops)
           + (if old(connection) == Absent then [CreateConnection(Own)] else [])
           + [OpenConnection(Own)]
      ensures old(connection) == Open || !openFails ==>
        && r == Pass
        && connection == Open && transaction == Active && inTransaction
        && ops == old(ops)
           + (if old(connection) == Absent then [CreateConnection(Own)] else [])
           + (if old(connection) != Open then [OpenConnection(Own)] else [])
           + (if old(transaction) == NoTransaction then [BeginTx] else [])
    {
      if connection == Absent {
        connection := Closed;
        ops := ops + [CreateConnection(Own)];
      }
      if connection == Closed {
        ops := ops + [OpenConnection(Own)];
        if openFails {
          return Fail(OpenFailed);
        }
        connection := Open;
      }
      if transaction == NoTransaction {
        transaction := Active;
        ops := ops + [BeginTx];
      }
      inTransaction := true;
      r := Pass;
    }

    /** Commits the live transaction, if any. When Commit throws, the
        transaction is rolled back and the exception rethrown (or the
        rollback's own exception, when that throws too). Whatever happens,
        InTransaction ends false and both handles are disposed and dropped. */
    method CommitTransaction(commitFails: bool, rollbackFails: bool) returns (r: Outcome<Exception>)
      requires Valid()
      modifies this`connection, this`transaction, this`inTransaction, this`ops
      ensures Valid()
      ensures connection == Absent && transaction == NoTransaction && !inTransaction
      ensures old(transaction) == NoTransaction || !commitFails ==> r == Pass
      ensures old(transaction) == Active && commitFails ==>
        r == Fail(if rollbackFails then RollbackFailed else CommitFailed)
      ensures ops == old(ops)
        + (if old(transaction) == Active then [CommitTx] + (if commitFails then [RollbackTx] else []) else [])
        + (if old(transaction) == Active then [DisposeTx] else [])
        + (if old(connection) != Absent then [DisposeConnection(Own)] else [])
    {
      r := Pass;
      if transaction == Active {
        ops := ops + [CommitTx];
        if commitFails {
          ops := ops + [RollbackTx];
          r := Fail(if rollbackFails then RollbackFailed else CommitFailed);
        }
      }
      inTransaction := false;
      if transaction == Active {
        ops := ops + [DisposeTx];
        transaction := NoTransaction;
      }
      if connection != Absent {
        ops := ops + [DisposeConnection(Own)];
        connection := Absent;
      }
    }

    /** The first call rolls back a live transaction, closes an open
        connection, disposes and drops both, clears InTransaction, drops the
        parameter buffers and marks the builder disposed. A rollback that
        throws still disposes the transaction, and a Close that throws still
        disposes the connection, but then the exception escapes: nothing
        after it happens. A later call does nothing. */
    method Dispose(rollbackFails: bool, closeFails: bool) returns (r: Outcome<Exception>)
      requires Valid()
      modifies this
      ensures Valid()
      ensures old(disposed) ==> r == Pass && unchanged(this)
      ensures !old(disposed) && old(transaction) == Active && rollbackFails ==>
        && r == Fail(RollbackFailed)
        && transaction == NoTransaction && !disposed
        && connection == old(connection) && inTransaction == old(inTransaction)
        && spParameters == old(spParameters) && spOutputParameters == old(spOutputParameters)
        && ops == old(ops) + [RollbackTx, DisposeTx]
      ensures !old(disposed) && (old(transaction) == NoTransaction || !rollbackFails)
              && old(connection) == Open && closeFails ==>
        && r == Fail(CloseFailed)
        && connection == Absent && transaction == NoTransaction && !disposed
        && inTransaction == old(inTransaction)
        && spParameters == old(spParameters) && spOutputParameters == old(spOutputParameters)
        && ops == old(ops)
           + (if old(transaction) == Active then [RollbackTx, DisposeTx] else [])
           + [CloseConnection(Own), DisposeConnection(Own)]
      ensures !old(disposed) && (old(transaction) == NoTransaction || !rollbackFails)
              && (old(connection) != Open || !closeFails) ==>
        && r == Pass
        && connection == Absent && transaction == NoTransaction && !inTransaction
        && spParameters.None? && spOutputParameters.None? && disposed
        && ops == old(ops)
           + (if old(transaction) == Active then [RollbackTx, DisposeTx] else [])
           + (if old(connection) == Open then [CloseConnection(Own)] else [])
           + (if old(connection) != Absent then [DisposeConnection(Own)] else [])
      ensures query == old(query) && spName == old(spName) && commandTimeout == old(commandTimeout)
    {
      r := Pass;
      if disposed {
        return;
      }
      if transaction == Active {
        ops := ops + [RollbackTx, DisposeTx];
        transaction := NoTransaction;
        if rollbackFails {
          r := Fail(RollbackFailed);
          return;
        }
      }
      if connection != Absent {
        var wasOpen := connection == Open;
        if wasOpen {
          ops := ops + [CloseConnection(Own)];
        }
        ops := ops + [DisposeConnection(Own)];
        connection := Absent;
        if wasOpen && closeFails {
          r := Fail(CloseFailed);
          return;
        }
      }
      inTransaction := false;
      spParameters := None;
      spOutputParameters := None;
      disposed := true;
    }

    /** Running a statement: inside a transaction it runs on the transaction's
        connection and leaves it open; otherwise it opens a connection of its
        own and disposes it afterwards. The builder's handles do not change. */
    method Execute()
      requires Valid()
      modifies this`ops
      ensures ops == old(ops) +
        if transaction == Active then [ExecuteOn(Own)]
        else [CreateConnection(Scoped), OpenConnection(Scoped), ExecuteOn(Scoped), DisposeConnection(Scoped)]
    {
      if transaction == Active {
        ops := ops + [ExecuteOn(Own)];
      } else {
        ops := ops + [CreateConnection(Scoped), OpenConnection(Scoped), ExecuteOn(Scoped), DisposeConnection(Scoped)];
      }
    }

    // ---- SELECT ----

    method Select(columns: seq<string>)
      modifies this`query
      ensures query == Some("SELECT " + Strings.Join(columns, ", "))
    {
      query := Some("SELECT " + Strings.Join(columns, ", "));
    }

    method SelectAll()
      modifies this`query
      ensures query == Some("SELECT *")
    {
      query := Some("SELECT *");
    }

    /** Rewrites the first "SELECT" to "SELECT DISTINCT"; a null query makes
        the regular expression throw. */
    method Distinct() returns (r: Outcome<Exception>)
      modifies this`query
      ensures old(query).None? ==> r == Fail(ArgumentNull) && query == old(query)
      ensures old(query).Some? ==>
        r == Pass && query == Some(Strings.ReplaceFirst(old(query).value, "SELECT", "SELECT DISTINCT"))
      ensures old(query).Some? && Strings.StartsWith(old(query).value, "SELECT") ==>
        query == Some("SELECT DISTINCT" + old(query).value[6..])
    {
      if query.None? {
        return Fail(ArgumentNull);
      }
      var q := query.value;
      if Strings.StartsWith(q, "SELECT") {
        assert q == "SELECT" + q[6..];
        SelectKeywordRewrite(q[6..], "SELECT DISTINCT");
      }
      query := Some(Strings.ReplaceFirst(q, "SELECT", "SELECT DISTINCT"));
      r := Pass;
    }

    /** Rewrites the first "SELECT" to "SELECT TOP rows". */
    method Top(rows: int32) returns (r: Outcome<Exception>)
      modifies this`query
      ensures old(query).None? ==> r == Fail(ArgumentNull) && query == old(query)
      ensures old(query).Some? ==>
        && r == Pass
        && query == Some(Strings.ReplaceFirst(old(query).value, "SELECT", "SELECT TOP " + Strings.IntToString(rows as int)))
      ensures old(query).Some? && Strings.StartsWith(old(query).value, "SELECT") ==>
        query == Some("SELECT TOP " + Strings.IntToString(rows as int) + old(query).value[6..])
    {
      if query.None? {
        return Fail(ArgumentNull);
      }
      var q := query.value;
      var replacement := "SELECT TOP " + Strings.IntToString(rows as int);
      if Strings.StartsWith(q, "SELECT") {
        assert q == "SELECT" + q[6..];
        SelectKeywordRewrite(q[6..], replacement);
      }
      query := Some(Strings.ReplaceFirst(q, "SELECT", replacement));
      r := Pass;
    }

    /** Both From overloads: the table, and its alias when one is given. */
    method From(table: string, alias: Option<string>)
      modifies this`query
      ensures query == Some(old(Text()) + " FROM " + table + AliasSuffix(alias))
    {
      query := Some(Text() + " FROM " + table + AliasSuffix(alias));
    }

    /** WITH (NOLOCK), after the FROM table and after the JOIN condition alike. */
    method WithNoLock()
      modifies this`query
      ensures query == Some(old(Text()) + " WITH (NOLOCK)")
    {
      query := Some(Text() + " WITH (NOLOCK)");
    }

    /** Both Join overloads. */
    method Join(table: string, alias: Option<string>, joinType: JoinType)
      modifies this`query
      ensures query == Some(old(Text()) + " " + JoinKeyword(joinType) + " JOIN " + table + AliasSuffix(alias))
    {
      query := Some(Text() + " " + JoinKeyword(joinType) + " JOIN " + table + AliasSuffix(alias));
    }

    method On(condition: string)
      modifies this`query
      ensures query == Some(old(Text()) + " ON " + condition)
    {
      query := Some(Text() + " ON " + condition);
    }

    /** WHERE of a SELECT, and of an UPDATE or DELETE: the same text. */
    method Where(condition: string)
      modifies this`query
      ensures query == Some(old(Text()) + " WHERE " + condition)
    {
      query := Some(Text() + " WHERE " + condition);
    }

    method GroupBy(columns: seq<string>)
      modifies this`query
      ensures query == Some(old(Text()) + " GROUP BY " + Strings.Join(columns, ", "))
    {
      query := Some(Text() + " GROUP BY " + Strings.Join(columns, ", "));
    }

    method Having(condition: string)
      modifies this`query
      ensures query == Some(old(Text()) + " HAVING " + condition)
    {
      query := Some(Text() + " HAVING " + condition);
    }

    method OrderBy(columns: seq<string>)
      modifies this`query
      ensures query == Some(old(Text()) + " ORDER BY " + Strings.Join(columns, ", "))
    {
      query := Some(Text() + " ORDER BY " + Strings.Join(columns, ", "));
    }

    method Ascending()
      modifies this`query
      ensures query == Some(old(Text()) + " ASC")
    {
      query := Some(Text() + " ASC");
    }

    method Descending()
      modifies this`query
      ensures query == Some(old(Text()) + " DESC")
    {
      query := Some(Text() + " DESC");
    }

    // ---- INSERT, UPDATE, DELETE ----

    method InsertInto(table: string)
      modifies this`query
      ensures query == Some("INSERT INTO " + table)
    {
      query := Some("INSERT INTO " + table);
    }

    method Columns(columns: seq<string>)
      modifies this`query
      ensures query == Some(old(Text()) + " (" + Strings.Join(columns, ", ") + ")")
    {
      query := Some(Text() + " (" + Strings.Join(columns, ", ") + ")");
    }

    /** Writes each value as a literal, joins them with ", " and wraps the
        whole query as " <query> VALUES (<literals>)". With no values, cutting
        the trailing separator off the empty text throws. */
    method Values(values: seq<Value>) returns (r: Outcome<Exception>)
      modifies this`query
      ensures |values| == 0 ==> r == Fail(ArgumentOutOfRange) && query == old(query)
      ensures |values| > 0 ==>
        && r == Pass
        && query == Some(" " + old(Text()) + " VALUES (" + Strings.Join(Literals(values), ", ") + ")")
    {
      var literals := Literals(values);
      var insertValues := "";
      var i := 0;
      while i < |values|
        invariant 0 <= i <= |values|
        invariant insertValues == Strings.Terminated(literals[..i], ", ")
        invariant query == old(query)
      {
        Strings.TerminatedStep(literals, i, ", ");
        insertValues := insertValues + literals[i] + ", ";
        i := i + 1;
      }
      assert literals[..|values|] == literals;
      Strings.RemoveTrailingSeparator(literals, ", ");
      match Strings.Remove(insertValues, |insertValues| - 2)
      case Failure(e) =>
        r := Fail(e);
      case Success(cut) =>
        query := Some(" " + Text() + " VALUES (" + cut + ")");
        r := Pass;
    }

    method Update(table: string)
      modifies this`query
      ensures query == Some("UPDATE " + table)
    {
      query := Some("UPDATE " + table);
    }

    /** Set with a dictionary: one assignment per entry, in enumeration order,
        joined with ", ". An empty dictionary throws. */
    method Set(assignments: seq<(string, Value)>) returns (r: Outcome<Exception>)
      modifies this`query
      ensures |assignments| == 0 ==> r == Fail(ArgumentOutOfRange) && query == old(query)
      ensures |assignments| > 0 ==>
        && r == Pass
        && query == Some(old(Text()) + " SET " + Strings.Join(Assignments(assignments), ", "))
    {
      var parts := Assignments(assignments);
      var values := "";
      var i := 0;
      while i < |assignments|
        invariant 0 <= i <= |assignments|
        invariant values == Strings.Terminated(parts[..i], ", ")
        invariant query == old(query)
      {
        Strings.TerminatedStep(parts, i, ", ");
        values := values + parts[i] + ", ";
        i := i + 1;
      }
      assert parts[..|assignments|] == parts;
      Strings.RemoveTrailingSeparator(parts, ", ");
      match Strings.Remove(values, |values| - 2)
      case Failure(e) =>
        r := Fail(e);
      case Success(cut) =>
        query := Some(Text() + " SET " + cut);
        r := Pass;
    }

    /** Set with assignments already written in SQL. */
    method SetAssignments(assignments: seq<string>)
      modifies this`query
      ensures query == Some(old(Text()) + " SET " + Strings.Join(assignments, ", "))
    {
      query := Some(Text() + " SET " + Strings.Join(assignments, ", "));
    }

    method DeleteFrom(table: string)
      modifies this`query
      ensures query == Some("DELETE FROM " + table)
    {
      query := Some("DELETE FROM " + table);
    }

    // ---- Stored procedures ----

    /** Names the procedure and empties both parameter buffers. After
        disposal the name is still set, then clearing the dropped buffer throws. */
    method StoreProcedure(name: string) returns (r: Outcome<Exception>)
      requires Valid()
      modifies this`spName, this`spParameters, this`spOutputParameters
      ensures Valid()
      ensures spName == Some(name)
      ensures old(spParameters).Some? && old(spOutputParameters).Some? ==>
        r == Pass && spParameters == Some(map[]) && spOutputParameters == Some([])
      ensures old(spParameters).None? ==>
        r == Fail(NullReference) && spParameters == old(spParameters) && spOutputParameters == old(spOutputParameters)
    {
      spName := Some(name);
      if spParameters.None? {
        return Fail(NullReference);
      }
      spParameters := Some(map[]);
      if spOutputParameters.None? {
        return Fail(NullReference);
      }
      spOutputParameters := Some([]);
      r := Pass;
    }

    /** Adds each entry with Dictionary.Add: a name already present throws,
        keeping what was added before it. */
    method WithParameters(parameters: seq<(string, Value)>) returns (r: Outcome<Exception>)
      requires Valid()
      modifies this`spParameters
      ensures Valid()
      ensures old(spParameters).Some? ==>
        (spParameters.value, r) == AddEach(old(spParameters).value, parameters)
      ensures old(spParameters).None? ==>
        && spParameters == old(spParameters)
        && r == (if |parameters| == 0 then Pass else Fail(NullReference))
    {
      if |parameters| > 0 && spParameters.None? {
        return Fail(NullReference);
      }
      if spParameters.None? {
        return Pass;
      }
      ghost var start := spParameters.value;
      var i := 0;
      while i < |parameters|
        invariant 0 <= i <= |parameters|
        invariant spParameters.Some?
        invariant AddEach(start, parameters) == AddEach(spParameters.value, parameters[i..])
      {
        assert parameters[i..][1..] == parameters[i + 1..];
        var (key, value) := parameters[i];
        if key in spParameters.value {
          return Fail(DuplicateKey(key));
        }
        spParameters := Some(spParameters.value[key := value]);
        i := i + 1;
      }
      r := Pass;
    }

    method WithParameter(name: string, value: Value) returns (r: Outcome<Exception>)
      requires Valid()
      modifies this`spParameters
      ensures Valid()
      ensures old(spParameters).None? ==> r == Fail(NullReference) && spParameters == old(spParameters)
      ensures old(spParameters).Some? && name in old(spParameters).value ==>
        r == Fail(DuplicateKey(name)) && spParameters == old(spParameters)
      ensures old(spParameters).Some? && name !in old(spParameters).value ==>
        r == Pass && spParameters == Some(old(spParameters).value[name := value])
    {
      if spParameters.None? {
        return Fail(NullReference);
      }
      if name in spParameters.value {
        return Fail(DuplicateKey(name));
      }
      spParameters := Some(spParameters.value[name := value]);
      r := Pass;
    }

    /** Appends the given declarations, in order (List.AddRange). */
    method WithOutputParameters(parameters: seq<OutputParameter>) returns (r: Outcome<Exception>)
      requires Valid()
      modifies this`spOutputParameters
      ensures Valid()
      ensures old(spOutputParameters).None? ==> r == Fail(NullReference) && spOutputParameters == old(spOutputParameters)
      ensures old(spOutputParameters).Some? ==> r == Pass && spOutputParameters == Some(old(spOutputParameters).value + parameters)
    {
      if spOutputParameters.None? {
        return Fail(NullReference);
      }
      spOutputParameters := Some(spOutputParameters.value + parameters);
      r := Pass;
    }

    method WithOutputParameter(parameter: OutputParameter) returns (r: Outcome<Exception>)
      requires Valid()
      modifies this`spOutputParameters
      ensures Valid()
      ensures old(spOutputParameters).None? ==> r == Fail(NullReference) && spOutputParameters == old(spOutputParameters)
      ensures old(spOutputParameters).Some? ==> r == Pass && spOutputParameters == Some(old(spOutputParameters).value + [parameter])
    {
      if spOutputParameters.None? {
        return Fail(NullReference);
      }
      spOutputParameters := Some(spOutputParameters.value + [parameter]);
      r := Pass;
    }

    /** The four WithOutputParameter overloads taking a name: each constructs
        an OutputParameter from what it is given and appends it. A null name
        throws in the OutputParameter constructor, before the list is touched. */
    method WithNewOutputParameter(name: Option<string>, dbType: DbType, size: Option<int32>,
                                  precision: Option<byte>, scale: Option<byte>) returns (r: Outcome<Exception>)
      requires Valid()
      modifies this`spOutputParameters
      ensures Valid()
      ensures name.None? || old(spOutputParameters).None? ==>
        r == Fail(NullReference) && spOutputParameters == old(spOutputParameters)
      ensures name.Some? && old(spOutputParameters).Some? ==>
        && r == Pass
        && spOutputParameters == Some(old(spOutputParameters).value + [OutputParameter(StripMarker(name.value), dbType, size, precision, scale)])
    {
      var created := Create(name, dbType, size, precision, scale);
      if created.Failure? {
        return Fail(created.error);
      }
      if spOutputParameters.None? {
        return Fail(NullReference);
      }
      spOutputParameters := Some(spOutputParameters.value + [created.value]);
      r := Pass;
    }

    /** The names the procedure's parameters are bound under before it runs:
        every input key and, when the outputs are bound too, every declared
        output name, each carrying the '@' marker. When two keys bind alike
        (`BoundNameCollision`) the set holds their name once. */
    method BoundParameterNames(withOutputs: bool) returns (r: Result<set<string>, Exception>)
      ensures spParameters.None? || (withOutputs && spOutputParameters.None?) ==> r == Failure(NullReference)
      ensures spParameters.Some? && (withOutputs ==> spOutputParameters.Some?) ==>
        r.Success? && r.value == BoundNames(spParameters.value.Keys)
          + (if withOutputs then BoundOutputNames(spOutputParameters.value) else {})
      ensures r.Success? ==> forall n :: n in r.value ==> Strings.StartsWith(n, "@")
    {
      if spParameters.None? {
        return Failure(NullReference);
      }
      var keys := spParameters.value.Keys;
      var names: set<string> := {};
      var pending := keys;
      while pending != {}
        invariant pending <= keys
        invariant names + BoundNames(pending) == BoundNames(keys)
        decreases pending
      {
        var key :| key in pending;
        BoundNamesSplit(pending, key);
        names := names + {BoundName(key)};
        pending := pending - {key};
      }
      if withOutputs {
        if spOutputParameters.None? {
          return Failure(NullReference);
        }
        var outputs := spOutputParameters.value;
        var bound := names;
        var i := 0;
        while i < |outputs|
          invariant 0 <= i <= |outputs|
          invariant names == bound + BoundOutputNames(outputs[..i])
        {
          BoundOutputNamesStep(outputs, i);
          names := names + {BoundName(outputs[i].name)};
          i := i + 1;
        }
        assert outputs[..i] == outputs;
        BoundNamesAreMarked(keys, outputs);
      } else {
        BoundNamesAreMarked(keys, []);
      }
      r := Success(names);
    }

    /** After the procedure ran: the declared outputs that `executed` (the
        names the command reports) contains, once trimmed, with the value
        `lookup` gives for each, in a fresh dictionary paired with the
        return value. Nothing of the builder changes. */
    method ReadBackOutputs<T>(returnValue: T, executed: set<string>, lookup: string -> Value)
      returns (r: Result<StoredProcedureWithOutputResult<T>, Exception>)
      ensures spOutputParameters.None? ==> r == Failure(NullReference)
      ensures spOutputParameters.Some? ==>
        match ReadBack(map[], spOutputParameters.value, ReportedBy(executed), lookup)
        case Success(m) => r == Success(StoredProcedureWithOutputResult(returnValue, m))
        case Failure(e) => r == Failure(e)
    {
      if spOutputParameters.None? {
        return Failure(NullReference);
      }
      var outputs := spOutputParameters.value;
      var kept := ReportedBy(executed);
      var outputParameters: map<string, Value> := map[];
      var i := 0;
      while i < |outputs|
        invariant 0 <= i <= |outputs|
        invariant ReadBack(map[], outputs, kept, lookup) == ReadBack(outputParameters, outputs[i..], kept, lookup)
      {
        assert outputs[i..][1..] == outputs[i + 1..];
        var name := outputs[i].name;
        if kept(name) {
          if name in outputParameters {
            return Failure(DuplicateKey(name));
          }
          outputParameters := outputParameters[name := lookup(name)];
        }
        i := i + 1;
      }
      r := Success(StoredProcedureWithOutputResult(returnValue, outputParameters));
    }
  }
}
