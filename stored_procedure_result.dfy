/** StoredProcedureWithOutputResult: what a stored procedure run with output
    parameters returns. */
module StoredProcedureResults {
  import opened Clr

  /** The value the run produced, paired with the output parameters read back
      from it (by bare name). Both are set once, when the library builds the pair. */
  datatype StoredProcedureWithOutputResult<T> =
    StoredProcedureWithOutputResult(returnValue: T, outputParameters: map<string, Value>)
}
