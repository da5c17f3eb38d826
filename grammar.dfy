/** The capability interfaces as a transition system. Each interface the
    builder hands back is a state; each method on it that returns another
    interface is a transition; each method that runs the statement makes the
    state an end state. A method returning void (transactions, Dispose)
    leaves the caller holding the same interface, so it loops. */
module Grammar {
  import opened Wrappers

  datatype State =
    | Start                                  // IFluentSql
    | SelectStatement                        // IFluentSqlSelectStatement
    | SelectDistinctStatement                // IFluentSqlSelectDistinctStatement
    | SelectTopStatement                     // IFluentSqlSelectTopStatement
    | SelectFromStatement                    // IFluentSqlSelectFromStatement
    | SelectFromWithNoLockStatement          // IFluentSqlSelectFromWithNoLockStatement
    | SelectJoinStatement                    // IFluentSqlSelectJoinStatement
    | SelectJoinOnStatement                  // IFluentSqlSelectJoinOnStatement
    | SelectJoinOnWithNoLockStatement        // IFluentSqlSelectJoinOnWithNoLockStatement
    | SelectWhereStatement                   // IFluentSqlSelectWhereStatement
    | SelectGroupByStatement                 // IFluentSqlSelectGroupByStatement
    | SelectGroupByHavingStatement           // IFluentSqlSelectGroupByHavingStatement
    | SelectOrderByStatement                 // IFluentSqlSelectOrderByStatement
    | SelectOrderByAscendingDescendingStatement  // IFluentSqlSelectOrderByAscendingDescendingStatement
    | InsertStatement                        // IFluentSqlInsertStatement
    | InsertColumnsStatement                 // IFluentSqlInsertColumnsStatement (its members are not known)
    | InsertValuesStatement                  // IFluentSqlInsertValuesStatement
    | UpdateStatement                        // IFluentSqlUpdateStatement
    | UpdateSetStatement                     // IFluentSqlUpdateSetStatement
    | DeleteStatement                        // IFluentSqlDeleteStatement
    | NonQueryWhereStatement                 // IFluentSqlNonQueryWhereStatement
    | StoredProcedureStatement               // IFluentSqlExecuteStoredProcedureStatement
    | StoredProcedureParameterStatement      // IFluentSqlExecuteStoredProcedureParameterStatement
    | StoredProcedureOutputParameterStatement  // IFluentSqlExecuteStoredProcedureOutputParameterStatement

  /** The interface members that return an interface or void. Overloads that
      are declared on the same interfaces share one call; overloads that are
      declared on different interfaces are told apart. */
  datatype Call =
    | SetTimeout | Select | SelectAll | InsertInto | Update | DeleteFrom | StoreProcedure
    | BeginTransaction | CommitTransaction | RollbackTransaction | Dispose
    | Top | Distinct | From | WithNoLock | Join
    | On | OnWithDictionary | OnWithObject
    | Where | WhereWithDictionary | WhereWithObject
    | GroupBy | Having | OrderBy | Ascending | Descending
    | Columns | Values | SetDictionary | SetAssignments
    | WithParameters | WithParametersObject | WithParameter | WithOutputParameter

  /** The execution members a state offers. */
  datatype End =
    | NoEnd
    | QueryEnd                      // IFluentSqlQueryEnd: ToDynamic, ToMappedObject, their Single and Async forms
    | DistinctQueryEnd              // only ToDynamic and ToMappedObject
    | NonQueryEnd                   // Execute
    | StoredProcedureEnd            // IFluentSqlStoredProcedureEnd
    | StoredProcedureWithOutputEnd  // IFluentSqlStoredProcedureWithOutputEnd

  /** The read-only properties a state offers. */
  datatype Getter = Query | Timeout | CommandTimeout | Name | InTransaction

  predicate IsOn(c: Call)
  {
    c == On || c == OnWithDictionary || c == OnWithObject
  }

  predicate IsWhere(c: Call)
  {
    c == Where || c == WhereWithDictionary || c == WhereWithObject
  }

  predicate IsInputParameter(c: Call)
  {
    c == WithParameters || c == WithParametersObject || c == WithParameter
  }

  /** The transition table: the interface a member returns, or None when the
      current interface does not declare the member. */
  function Next(s: State, c: Call): Option<State>
  {
    match s
    case Start =>
      (match c
       case SetTimeout => Some(Start)
       case Select => Some(SelectStatement)
       case SelectAll => Some(SelectStatement)
       case InsertInto => Some(InsertStatement)
       case Update => Some(UpdateStatement)
       case DeleteFrom => Some(DeleteStatement)
       case StoreProcedure => Some(StoredProcedureStatement)
       case BeginTransaction => Some(Start)
       case CommitTransaction => Some(Start)
       case RollbackTransaction => Some(Start)
       case Dispose => Some(Start)
       case _ => None)
    case SelectStatement =>
      (match c
       case Top => Some(SelectTopStatement)
       case Distinct => Some(SelectDistinctStatement)
       case From => Some(SelectFromStatement)
       case _ => None)
    case SelectDistinctStatement =>
      (match c
       case Top => Some(SelectTopStatement)
       case From => Some(SelectFromStatement)
       case _ => None)
    case SelectTopStatement =>
      (match c
       case From => Some(SelectFromStatement)
       case _ => None)
    case SelectFromStatement =>
      (match c
       case WithNoLock => Some(SelectFromWithNoLockStatement)
       case Join => Some(SelectJoinStatement)
       case Where => Some(SelectWhereStatement)
       case GroupBy => Some(SelectGroupByStatement)
       case OrderBy => Some(SelectOrderByStatement)
       case _ => None)
    case SelectFromWithNoLockStatement =>
      (match c
       case Join => Some(SelectJoinStatement)
       case Where => Some(SelectWhereStatement)
       case WhereWithDictionary => Some(SelectWhereStatement)
       case WhereWithObject => Some(SelectWhereStatement)
       case GroupBy => Some(SelectGroupByStatement)
       case OrderBy => Some(SelectOrderByStatement)
       case _ => None)
    case SelectJoinStatement =>
      (match c
       case On => Some(SelectJoinOnStatement)
       case OnWithDictionary => Some(SelectJoinOnStatement)
       case OnWithObject => Some(SelectJoinOnStatement)
       case _ => None)
    case SelectJoinOnStatement =>
      (match c
       case WithNoLock => Some(SelectJoinOnWithNoLockStatement)
       case Where => Some(SelectWhereStatement)
       case GroupBy => Some(SelectGroupByStatement)
       case OrderBy => Some(SelectOrderByStatement)
       case _ => None)
    case SelectJoinOnWithNoLockStatement =>
      (match c
       case Where => Some(SelectWhereStatement)
       case GroupBy => Some(SelectGroupByStatement)
       case OrderBy => Some(SelectOrderByStatement)
       case _ => None)
    case SelectWhereStatement =>
      (match c
       case GroupBy => Some(SelectGroupByStatement)
       case OrderBy => Some(SelectOrderByStatement)
       case _ => None)
    case SelectGroupByStatement =>
      (match c
       case Having => Some(SelectGroupByHavingStatement)
       case OrderBy => Some(SelectOrderByStatement)
       case _ => None)
    case SelectGroupByHavingStatement =>
      (match c
       case OrderBy => Some(SelectOrderByStatement)
       case _ => None)
    case SelectOrderByStatement =>
      (match c
       case Ascending => Some(SelectOrderByAscendingDescendingStatement)
       case Descending => Some(SelectOrderByAscendingDescendingStatement)
       case _ => None)
    case SelectOrderByAscendingDescendingStatement => None
    case InsertStatement =>
      (match c
       case Columns => Some(InsertColumnsStatement)
       case Values => Some(InsertValuesStatement)
       case _ => None)
    case InsertColumnsStatement => None
    case InsertValuesStatement => None
    case UpdateStatement =>
      (match c
       case SetDictionary => Some(UpdateSetStatement)
       case _ => None)
    case UpdateSetStatement =>
      (match c
       case Where => Some(NonQueryWhereStatement)
       case _ => None)
    case DeleteStatement =>
      (match c
       case Where => Some(NonQueryWhereStatement)
       case _ => None)
    case NonQueryWhereStatement => None
    case StoredProcedureStatement =>
      (match c
       case WithParameters => Some(StoredProcedureParameterStatement)
       case WithParameter => Some(StoredProcedureParameterStatement)
       case WithOutputParameter => Some(StoredProcedureOutputParameterStatement)
       case _ => None)
    case StoredProcedureParameterStatement =>
      (match c
       case WithParameters => Some(StoredProcedureParameterStatement)
       case WithParametersObject => Some(StoredProcedureParameterStatement)
       case WithParameter => Some(StoredProcedureParameterStatement)
       case WithOutputParameter => Some(StoredProcedureOutputParameterStatement)
       case _ => None)
    case StoredProcedureOutputParameterStatement =>
      (match c
       case WithOutputParameter => Some(StoredProcedureOutputParameterStatement)
       case _ => None)
  }

  /** Which execution members a state declares or inherits. */
  function EndOf(s: State): End
  {
    match s
    case SelectStatement | SelectTopStatement | SelectFromStatement | SelectFromWithNoLockStatement
       | SelectJoinOnStatement | SelectJoinOnWithNoLockStatement | SelectWhereStatement
       | SelectGroupByStatement | SelectGroupByHavingStatement | SelectOrderByStatement
       | SelectOrderByAscendingDescendingStatement => QueryEnd
    case SelectDistinctStatement => DistinctQueryEnd
    case InsertValuesStatement | UpdateSetStatement | DeleteStatement | NonQueryWhereStatement => NonQueryEnd
    case StoredProcedureStatement | StoredProcedureParameterStatement => StoredProcedureEnd
    case StoredProcedureOutputParameterStatement => StoredProcedureWithOutputEnd
    case Start | SelectJoinStatement | InsertStatement | InsertColumnsStatement | UpdateStatement => NoEnd
  }

  /** The statement built so far can be run from this state. (The start state
      runs only caller-written SQL, through its ExecuteCustom members.) */
  predicate Executable(s: State)
  {
    EndOf(s) != NoEnd
  }

  /** Which read-only properties a state declares. */
  function Getters(s: State): set<Getter>
  {
    match s
    case Start => {Timeout, InTransaction}
    case SelectDistinctStatement | InsertValuesStatement | UpdateSetStatement | DeleteStatement
       | NonQueryWhereStatement => {Query, CommandTimeout}
    case SelectStatement | SelectTopStatement | SelectFromStatement | SelectFromWithNoLockStatement
       | SelectJoinOnStatement | SelectJoinOnWithNoLockStatement | SelectWhereStatement
       | SelectGroupByStatement | SelectGroupByHavingStatement | SelectOrderByStatement
       | SelectOrderByAscendingDescendingStatement => {Query, Timeout}
    case StoredProcedureStatement | StoredProcedureParameterStatement
       | StoredProcedureOutputParameterStatement => {Name, Timeout}
    case SelectJoinStatement | InsertStatement | InsertColumnsStatement | UpdateStatement => {}
  }

  /** The state a chain of calls reaches, or None when some call in it is not
      declared on the interface it is made on. */
  function Run(s: State, calls: seq<Call>): Option<State>
    decreases |calls|
  {
    if |calls| == 0 then Some(s)
    else match Next(s, calls[0])
      case None => None
      case Some(t) => Run(t, calls[1..])
  }
}
