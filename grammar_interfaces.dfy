/** One lemma per capability interface: the members it declares, where each
    leads, whether the statement can run from it and which properties it
    exposes. Each lemma also states what the interface does NOT offer. */
module Interfaces {
  import opened Wrappers
  import opened Grammar

  /** IFluentSql: configuration, the six statement entries and the
      transaction members, which exist nowhere else. */
  lemma FluentSqlInterface()
    ensures Next(Start, SetTimeout) == Some(Start)
    ensures Next(Start, Select) == Some(SelectStatement) && Next(Start, SelectAll) == Some(SelectStatement)
    ensures Next(Start, InsertInto) == Some(InsertStatement)
    ensures Next(Start, Update) == Some(UpdateStatement)
    ensures Next(Start, DeleteFrom) == Some(DeleteStatement)
    ensures Next(Start, StoreProcedure) == Some(StoredProcedureStatement)
    ensures forall c :: Next(Start, c).Some? ==>
      c in {SetTimeout, Select, SelectAll, InsertInto, Update, DeleteFrom, StoreProcedure,
            BeginTransaction, CommitTransaction, RollbackTransaction, Dispose}
    ensures forall s :: Next(s, BeginTransaction).Some? <==> s == Start
    ensures forall s :: Next(s, CommitTransaction).Some? <==> s == Start
    ensures forall s :: Next(s, RollbackTransaction).Some? <==> s == Start
    ensures !Executable(Start) && Getters(Start) == {Timeout, InTransaction}
  {
  }

  /** IFluentSqlSelectStatement: Top, Distinct or From; runnable as it is;
      nothing that needs a table comes before From. */
  lemma SelectStatementInterface()
    ensures Next(SelectStatement, Top) == Some(SelectTopStatement)
    ensures Next(SelectStatement, Distinct) == Some(SelectDistinctStatement)
    ensures Next(SelectStatement, From) == Some(SelectFromStatement)
    ensures forall c :: Next(SelectStatement, c).Some? ==> c in {Top, Distinct, From}
    ensures EndOf(SelectStatement) == QueryEnd && Getters(SelectStatement) == {Query, Timeout}
  {
  }

  /** IFluentSqlSelectDistinctStatement: Top or From, no second Distinct; runs
      only through ToDynamic and ToMappedObject. */
  lemma SelectDistinctInterface()
    ensures Next(SelectDistinctStatement, Top) == Some(SelectTopStatement)
    ensures Next(SelectDistinctStatement, From) == Some(SelectFromStatement)
    ensures forall c :: Next(SelectDistinctStatement, c).Some? ==> c in {Top, From}
    ensures EndOf(SelectDistinctStatement) == DistinctQueryEnd
    ensures Getters(SelectDistinctStatement) == {Query, CommandTimeout}
  {
  }

  /** IFluentSqlSelectTopStatement: only From; runnable as it is. */
  lemma SelectTopInterface()
    ensures Next(SelectTopStatement, From) == Some(SelectFromStatement)
    ensures forall c :: Next(SelectTopStatement, c).Some? ==> c == From
    ensures EndOf(SelectTopStatement) == QueryEnd && Getters(SelectTopStatement) == {Query, Timeout}
  {
  }

  /** IFluentSqlSelectFromStatement: WithNoLock, Join, Where, GroupBy, OrderBy;
      no Having; runnable. */
  lemma SelectFromInterface()
    ensures Next(SelectFromStatement, WithNoLock) == Some(SelectFromWithNoLockStatement)
    ensures Next(SelectFromStatement, Join) == Some(SelectJoinStatement)
    ensures Next(SelectFromStatement, Where) == Some(SelectWhereStatement)
    ensures Next(SelectFromStatement, GroupBy) == Some(SelectGroupByStatement)
    ensures Next(SelectFromStatement, OrderBy) == Some(SelectOrderByStatement)
    ensures forall c :: Next(SelectFromStatement, c).Some? ==> c in {WithNoLock, Join, Where, GroupBy, OrderBy}
    ensures EndOf(SelectFromStatement) == QueryEnd && Getters(SelectFromStatement) == {Query, Timeout}
  {
  }

  /** IFluentSqlSelectFromWithNoLockStatement: Join, the three Where forms,
      GroupBy, OrderBy; no second WithNoLock; runnable. */
  lemma SelectFromWithNoLockInterface()
    ensures Next(SelectFromWithNoLockStatement, Join) == Some(SelectJoinStatement)
    ensures forall c :: IsWhere(c) ==> Next(SelectFromWithNoLockStatement, c) == Some(SelectWhereStatement)
    ensures Next(SelectFromWithNoLockStatement, GroupBy) == Some(SelectGroupByStatement)
    ensures Next(SelectFromWithNoLockStatement, OrderBy) == Some(SelectOrderByStatement)
    ensures forall c :: Next(SelectFromWithNoLockStatement, c).Some? ==> c == Join || IsWhere(c) || c == GroupBy || c == OrderBy
    ensures EndOf(SelectFromWithNoLockStatement) == QueryEnd
    ensures Getters(SelectFromWithNoLockStatement) == {Query, Timeout}
  {
  }

  /** IFluentSqlSelectJoinStatement: only the three On forms; it cannot run
      and exposes no properties. */
  lemma SelectJoinInterface()
    ensures forall c :: Next(SelectJoinStatement, c).Some? <==> IsOn(c)
    ensures forall c :: IsOn(c) ==> Next(SelectJoinStatement, c) == Some(SelectJoinOnStatement)
    ensures !Executable(SelectJoinStatement) && Getters(SelectJoinStatement) == {}
  {
  }

  /** IFluentSqlSelectJoinOnStatement: WithNoLock, Where, GroupBy, OrderBy; no
      second Join; runnable. */
  lemma SelectJoinOnInterface()
    ensures Next(SelectJoinOnStatement, WithNoLock) == Some(SelectJoinOnWithNoLockStatement)
    ensures Next(SelectJoinOnStatement, Where) == Some(SelectWhereStatement)
    ensures Next(SelectJoinOnStatement, GroupBy) == Some(SelectGroupByStatement)
    ensures Next(SelectJoinOnStatement, OrderBy) == Some(SelectOrderByStatement)
    ensures forall c :: Next(SelectJoinOnStatement, c).Some? ==> c in {WithNoLock, Where, GroupBy, OrderBy}
    ensures EndOf(SelectJoinOnStatement) == QueryEnd && Getters(SelectJoinOnStatement) == {Query, Timeout}
  {
  }

  /** IFluentSqlSelectJoinOnWithNoLockStatement: Where, GroupBy, OrderBy;
      runnable. */
  lemma SelectJoinOnWithNoLockInterface()
    ensures Next(SelectJoinOnWithNoLockStatement, Where) == Some(SelectWhereStatement)
    ensures Next(SelectJoinOnWithNoLockStatement, GroupBy) == Some(SelectGroupByStatement)
    ensures Next(SelectJoinOnWithNoLockStatement, OrderBy) == Some(SelectOrderByStatement)
    ensures forall c :: Next(SelectJoinOnWithNoLockStatement, c).Some? ==> c in {Where, GroupBy, OrderBy}
    ensures EndOf(SelectJoinOnWithNoLockStatement) == QueryEnd
    ensures Getters(SelectJoinOnWithNoLockStatement) == {Query, Timeout}
  {
  }

  /** IFluentSqlSelectWhereStatement: GroupBy or OrderBy; runnable. */
  lemma SelectWhereInterface()
    ensures Next(SelectWhereStatement, GroupBy) == Some(SelectGroupByStatement)
    ensures Next(SelectWhereStatement, OrderBy) == Some(SelectOrderByStatement)
    ensures forall c :: Next(SelectWhereStatement, c).Some? ==> c in {GroupBy, OrderBy}
    ensures EndOf(SelectWhereStatement) == QueryEnd && Getters(SelectWhereStatement) == {Query, Timeout}
  {
  }

  /** IFluentSqlSelectGroupByStatement: Having (its only source) or OrderBy;
      runnable. */
  lemma SelectGroupByInterface()
    ensures Next(SelectGroupByStatement, Having) == Some(SelectGroupByHavingStatement)
    ensures Next(SelectGroupByStatement, OrderBy) == Some(SelectOrderByStatement)
    ensures forall c :: Next(SelectGroupByStatement, c).Some? ==> c in {Having, OrderBy}
    ensures forall s :: Next(s, Having).Some? <==> s == SelectGroupByStatement
    ensures EndOf(SelectGroupByStatement) == QueryEnd && Getters(SelectGroupByStatement) == {Query, Timeout}
  {
  }

  /** IFluentSqlSelectGroupByHavingStatement: only OrderBy; runnable. */
  lemma SelectGroupByHavingInterface()
    ensures forall c :: Next(SelectGroupByHavingStatement, c).Some? <==> c == OrderBy
    ensures Next(SelectGroupByHavingStatement, OrderBy) == Some(SelectOrderByStatement)
    ensures EndOf(SelectGroupByHavingStatement) == QueryEnd
    ensures Getters(SelectGroupByHavingStatement) == {Query, Timeout}
  {
  }

  /** IFluentSqlSelectOrderByStatement: Ascending or Descending; runnable
      without a direction. */
  lemma SelectOrderByInterface()
    ensures Next(SelectOrderByStatement, Ascending) == Some(SelectOrderByAscendingDescendingStatement)
    ensures Next(SelectOrderByStatement, Descending) == Some(SelectOrderByAscendingDescendingStatement)
    ensures forall c :: Next(SelectOrderByStatement, c).Some? ==> c in {Ascending, Descending}
    ensures EndOf(SelectOrderByStatement) == QueryEnd && Getters(SelectOrderByStatement) == {Query, Timeout}
  {
  }

  /** IFluentSqlSelectOrderByAscendingDescendingStatement: no clause member;
      runnable. */
  lemma SelectOrderByAscendingDescendingInterface()
    ensures forall c :: Next(SelectOrderByAscendingDescendingStatement, c).None?
    ensures EndOf(SelectOrderByAscendingDescendingStatement) == QueryEnd
    ensures Getters(SelectOrderByAscendingDescendingStatement) == {Query, Timeout}
  {
  }

  /** IFluentSqlInsertStatement: Columns or Values; cannot run; no properties. */
  lemma InsertInterface()
    ensures Next(InsertStatement, Columns) == Some(InsertColumnsStatement)
    ensures Next(InsertStatement, Values) == Some(InsertValuesStatement)
    ensures forall c :: Next(InsertStatement, c).Some? ==> c in {Columns, Values}
    ensures !Executable(InsertStatement) && Getters(InsertStatement) == {}
  {
  }

  /** IFluentSqlInsertValuesStatement: Execute only. */
  lemma InsertValuesInterface()
    ensures forall c :: Next(InsertValuesStatement, c).None?
    ensures EndOf(InsertValuesStatement) == NonQueryEnd
    ensures Getters(InsertValuesStatement) == {Query, CommandTimeout}
  {
  }

  /** IFluentSqlUpdateStatement: only Set with a dictionary; cannot run. */
  lemma UpdateInterface()
    ensures forall c :: Next(UpdateStatement, c).Some? <==> c == SetDictionary
    ensures Next(UpdateStatement, SetDictionary) == Some(UpdateSetStatement)
    ensures forall s :: Next(s, SetAssignments).None?
    ensures !Executable(UpdateStatement) && Getters(UpdateStatement) == {}
  {
  }

  /** IFluentSqlUpdateSetStatement: Where, or Execute straight away. */
  lemma UpdateSetInterface()
    ensures forall c :: Next(UpdateSetStatement, c).Some? <==> c == Where
    ensures Next(UpdateSetStatement, Where) == Some(NonQueryWhereStatement)
    ensures EndOf(UpdateSetStatement) == NonQueryEnd
    ensures Getters(UpdateSetStatement) == {Query, CommandTimeout}
  {
  }

  /** IFluentSqlDeleteStatement: Where, or Execute straight away. */
  lemma DeleteInterface()
    ensures forall c :: Next(DeleteStatement, c).Some? <==> c == Where
    ensures Next(DeleteStatement, Where) == Some(NonQueryWhereStatement)
    ensures EndOf(DeleteStatement) == NonQueryEnd
    ensures Getters(DeleteStatement) == {Query, CommandTimeout}
  {
  }

  /** IFluentSqlNonQueryWhereStatement: Execute only. */
  lemma NonQueryWhereInterface()
    ensures forall c :: Next(NonQueryWhereStatement, c).None?
    ensures EndOf(NonQueryWhereStatement) == NonQueryEnd
    ensures Getters(NonQueryWhereStatement) == {Query, CommandTimeout}
  {
  }

  /** IFluentSqlExecuteStoredProcedureStatement: input parameters (dictionary
      or single) or output parameters; runnable with plain results. */
  lemma StoredProcedureInterface()
    ensures Next(StoredProcedureStatement, WithParameters) == Some(StoredProcedureParameterStatement)
    ensures Next(StoredProcedureStatement, WithParameter) == Some(StoredProcedureParameterStatement)
    ensures Next(StoredProcedureStatement, WithOutputParameter) == Some(StoredProcedureOutputParameterStatement)
    ensures forall c :: Next(StoredProcedureStatement, c).Some? ==> c in {WithParameters, WithParameter, WithOutputParameter}
    ensures EndOf(StoredProcedureStatement) == StoredProcedureEnd
    ensures Getters(StoredProcedureStatement) == {Name, Timeout}
  {
  }

  /** IFluentSqlExecuteStoredProcedureParameterStatement: every input adder
      stays, output adders move on; runnable with plain results. */
  lemma StoredProcedureParameterInterface()
    ensures forall c :: IsInputParameter(c) ==>
      Next(StoredProcedureParameterStatement, c) == Some(StoredProcedureParameterStatement)
    ensures Next(StoredProcedureParameterStatement, WithOutputParameter) == Some(StoredProcedureOutputParameterStatement)
    ensures forall c :: Next(StoredProcedureParameterStatement, c).Some? ==> IsInputParameter(c) || c == WithOutputParameter
    ensures EndOf(StoredProcedureParameterStatement) == StoredProcedureEnd
    ensures Getters(StoredProcedureParameterStatement) == {Name, Timeout}
  {
  }

  /** IFluentSqlExecuteStoredProcedureOutputParameterStatement: only more
      output parameters; results come paired with the output values. */
  lemma StoredProcedureOutputParameterInterface()
    ensures forall c :: Next(StoredProcedureOutputParameterStatement, c).Some? <==> c == WithOutputParameter
    ensures Next(StoredProcedureOutputParameterStatement, WithOutputParameter) == Some(StoredProcedureOutputParameterStatement)
    ensures EndOf(StoredProcedureOutputParameterStatement) == StoredProcedureWithOutputEnd
    ensures Getters(StoredProcedureOutputParameterStatement) == {Name, Timeout}
  {
  }
}
