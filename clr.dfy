/** The few runtime types of .NET that the builder's signatures mention. */
module Clr {

  /** System.Byte */
  newtype byte = x: int | 0 <= x < 0x100

  /** System.Int32 */
  newtype int32 = x: int | -0x8000_0000 <= x < 0x8000_0000

  /** System.Data.DbType is an enum backed by Int32; its named members are
      outside this model, only the value is carried around. */
  type DbType = int32

  /** The exceptions the modelled code can raise, by .NET type. */
  datatype Exception =
    | ArgumentNull          // System.ArgumentNullException
    | ArgumentOutOfRange    // System.ArgumentOutOfRangeException
    | DuplicateKey(key: string)  // ArgumentException from Dictionary.Add
    | NullReference         // System.NullReferenceException
    | CommitFailed          // whatever IDbTransaction.Commit raised
    | RollbackFailed        // whatever IDbTransaction.Rollback raised
    | OpenFailed            // whatever IDbConnection.Open raised
    | CloseFailed           // whatever IDbConnection.Close raised

  /** A boxed `object` as the builder inspects it: null, a string, a char,
      a DateTime, or anything else. A DateTime carries the text of its
      `yyyy-MM-dd hh:mm:ss.fff` formatting and any other object the text of
      its ToString(); both are culture dependent and are given, not computed. */
  datatype Value =
    | Null
    | Str(s: string)
    | Chr(c: char)
    | Date(formatted: string)
    | Other(text: string)
}
