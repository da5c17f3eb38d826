/** OutputParameter: the declaration of one output parameter of a stored procedure. */
module OutputParameters {
  import opened Wrappers
  import opened Clr
  import opened Strings

  /** Every field is set by a constructor and never again. The database type
      is declared nullable but every constructor sets it, so it is not optional here. */
  datatype OutputParameter = OutputParameter(
    name: string,
    dbType: DbType,
    size: Option<int32>,
    precision: Option<byte>,
    scale: Option<byte>)

  /** The stored form of a name: one leading '@' removed, if there is one. */
  function StripMarker(name: string): string
  {
    if StartsWith(name, "@") then name[1..] else name
  }

  /** Stripping removes exactly the one marker, and nothing when there is none. */
  lemma StripMarkerRemovesOne(name: string)
    ensures StartsWith(name, "@") ==> "@" + StripMarker(name) == name
    ensures !StartsWith(name, "@") ==> StripMarker(name) == name
  {
    if StartsWith(name, "@") {
      assert "@" + name[1..] == name;
    }
  }

  /** Only one marker goes: the stored name still starts with '@' exactly when
      the given one started with "@@". */
  lemma StripMarkerKeepsSecondMarker(name: string)
    ensures StartsWith(StripMarker(name), "@") <==> StartsWith(name, "@@")
  {
    if StartsWith(name, "@@") {
      assert StripMarker(name)[..1] == name[1..2];
    } else if StartsWith(name, "@") && |name| >= 2 {
      assert StripMarker(name)[..1] == name[1..2];
      assert name[..2] == [name[0], name[1]];
    }
  }

  /** OutputParameter(name, type, size = null, precision = null, scale = null).
      A null name fails at StartsWith with a NullReferenceException. */
  function Create(name: Option<string>, dbType: DbType, size: Option<int32>,
                  precision: Option<byte>, scale: Option<byte>): (r: Result<OutputParameter, Exception>)
    ensures r.Failure? <==> name.None?
    ensures r.Failure? ==> r.error == NullReference
    ensures r.Success? ==> !StartsWith(name.value, "@@") ==> !StartsWith(r.value.name, "@")
    ensures r.Success? ==> r.value.name == name.value || "@" + r.value.name == name.value
    ensures r.Success? ==> r.value.dbType == dbType && r.value.size == size
                           && r.value.precision == precision && r.value.scale == scale
  {
    match name
    case None => Failure(NullReference)
    case Some(n) =>
      StripMarkerRemovesOne(n);
      StripMarkerKeepsSecondMarker(n);
      Success(OutputParameter(StripMarker(n), dbType, size, precision, scale))
  }

  /** OutputParameter(name, type): size, precision and scale stay null. */
  function CreateTyped(name: Option<string>, dbType: DbType): (r: Result<OutputParameter, Exception>)
    ensures r == Create(name, dbType, None, None, None)
  {
    if name.None? then Failure(NullReference)
    else Success(OutputParameter(StripMarker(name.value), dbType, None, None, None))
  }

  /** OutputParameter(name, type, size): only the size is set. */
  function CreateSized(name: Option<string>, dbType: DbType, size: int32): (r: Result<OutputParameter, Exception>)
    ensures r == Create(name, dbType, Some(size), None, None)
  {
    if name.None? then Failure(NullReference)
    else Success(OutputParameter(StripMarker(name.value), dbType, Some(size), None, None))
  }

  /** OutputParameter(name, type, precision, scale): precision and scale are
      set, the size stays null. */
  function CreateScaled(name: Option<string>, dbType: DbType, precision: byte, scale: byte): (r: Result<OutputParameter, Exception>)
    ensures r == Create(name, dbType, None, Some(precision), Some(scale))
  {
    if name.None? then Failure(NullReference)
    else Success(OutputParameter(StripMarker(name.value), dbType, None, Some(precision), Some(scale)))
  }
}
