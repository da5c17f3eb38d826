/** The stored-procedure parameters: the input dictionary, the '@' marker
    added at execution, and the read-back of output values. */
module Parameters {
  import opened Wrappers
  import opened Clr
  import opened Strings
  import opened OutputParameters

  /** The input dictionary after `Dictionary.Add` of each entry in turn: the
      first key already present stops the loop with an ArgumentException,
      and the entries added before it stay. */
  function AddEach(m: map<string, Value>, entries: seq<(string, Value)>): (map<string, Value>, Outcome<Exception>)
    decreases |entries|
  {
    if |entries| == 0 then (m, Pass)
    else if entries[0].0 in m then (m, Fail(DuplicateKey(entries[0].0)))
    else AddEach(m[entries[0].0 := entries[0].1], entries[1..])
  }

  function KeysOf(entries: seq<(string, Value)>): set<string>
  {
    set k | 0 <= k < |entries| :: entries[k].0
  }

  /** No entry repeats a key that is present or that an earlier entry added. */
  predicate AllNew(m: map<string, Value>, entries: seq<(string, Value)>)
  {
    && (forall k :: 0 <= k < |entries| ==> entries[k].0 !in m)
    && (forall i, j :: 0 <= i < j < |entries| ==> entries[i].0 != entries[j].0)
  }

  /** Adding never overwrites or drops what was there, and adds nothing but the entries' keys. */
  lemma {:induction false} AddEachKeepsEarlier(m: map<string, Value>, entries: seq<(string, Value)>)
    ensures forall n :: n in m ==> n in AddEach(m, entries).0 && AddEach(m, entries).0[n] == m[n]
    ensures AddEach(m, entries).0.Keys <= m.Keys + KeysOf(entries)
    decreases |entries|
  {
    if |entries| > 0 && entries[0].0 !in m {
      var m' := m[entries[0].0 := entries[0].1];
      AddEachKeepsEarlier(m', entries[1..]);
      KeysOfSplit(entries);
    }
  }

  lemma KeysOfSplit(entries: seq<(string, Value)>)
    requires |entries| > 0
    ensures KeysOf(entries) == {entries[0].0} + KeysOf(entries[1..])
  {
    forall n | n in KeysOf(entries[1..]) ensures n in KeysOf(entries) {
      var k :| 0 <= k < |entries[1..]| && entries[1..][k].0 == n;
      assert entries[k + 1].0 == n;
    }
  }

  /** AllNew, one entry at a time. */
  lemma AllNewStep(m: map<string, Value>, entries: seq<(string, Value)>)
    requires |entries| > 0
    ensures AllNew(m, entries) <==> entries[0].0 !in m && AllNew(m[entries[0].0 := entries[0].1], entries[1..])
  {
    var m' := m[entries[0].0 := entries[0].1];
    var rest := entries[1..];
    if AllNew(m, entries) {
      forall k | 0 <= k < |rest| ensures rest[k].0 !in m' {
        assert rest[k] == entries[k + 1];
      }
      forall i, j | 0 <= i < j < |rest| ensures rest[i].0 != rest[j].0 {
        assert rest[i] == entries[i + 1] && rest[j] == entries[j + 1];
      }
    }
    if entries[0].0 !in m && AllNew(m', rest) {
      forall k | 0 <= k < |entries| ensures entries[k].0 !in m {
        if k > 0 { assert entries[k] == rest[k - 1]; }
      }
      forall i, j | 0 <= i < j < |entries| ensures entries[i].0 != entries[j].0 {
        assert entries[j] == rest[j - 1];
        if i > 0 { assert entries[i] == rest[i - 1]; }
      }
    }
  }

  /** The loop runs to the end exactly when every key is new; otherwise it
      fails on a repeated key. */
  lemma {:induction false} AddEachSucceedsIff(m: map<string, Value>, entries: seq<(string, Value)>)
    ensures AddEach(m, entries).1.Pass? <==> AllNew(m, entries)
    ensures AddEach(m, entries).1.Fail? ==>
      AddEach(m, entries).1.error.DuplicateKey? && AddEach(m, entries).1.error.key in KeysOf(entries)
    decreases |entries|
  {
    if |entries| > 0 {
      KeysOfSplit(entries);
      AllNewStep(m, entries);
      if entries[0].0 !in m {
        AddEachSucceedsIff(m[entries[0].0 := entries[0].1], entries[1..]);
      }
    }
  }

  /** A loop that ran to the end holds every entry under its own key, and
      nothing but the old keys and the entries' keys. */
  lemma {:induction false} AddEachHoldsEntries(m: map<string, Value>, entries: seq<(string, Value)>)
    requires AddEach(m, entries).1.Pass?
    ensures AddEach(m, entries).0.Keys == m.Keys + KeysOf(entries)
    ensures forall k :: 0 <= k < |entries| ==> AddEach(m, entries).0[entries[k].0] == entries[k].1
    decreases |entries|
  {
    if |entries| > 0 {
      var m' := m[entries[0].0 := entries[0].1];
      var rest := entries[1..];
      KeysOfSplit(entries);
      AddEachHoldsEntries(m', rest);
      AddEachKeepsEarlier(m', rest);
      var r := AddEach(m', rest).0;
      forall k | 0 <= k < |entries| ensures r[entries[k].0] == entries[k].1 {
        if k > 0 { assert entries[k] == rest[k - 1]; }
      }
    }
  }

  /** The name a parameter is bound under when the procedure runs: itself if
      it already starts with '@', otherwise with '@' in front. */
  function BoundName(name: string): string
  {
    if StartsWith(name, "@") then name else "@" + name
  }

  /** Every bound name carries the marker, and binding it again changes nothing. */
  lemma BoundNameIsMarkedAndStable(name: string)
    ensures StartsWith(BoundName(name), "@")
    ensures BoundName(BoundName(name)) == BoundName(name)
  {
    assert ("@" + name)[..1] == "@";
  }

  /** Two names are bound under the same name exactly when they are equal or
      one is the other, unmarked, with the marker added. */
  lemma BoundNameCollision(a: string, b: string)
    ensures BoundName(a) == BoundName(b) <==>
      a == b || (a == "@" + b && !StartsWith(b, "@")) || (b == "@" + a && !StartsWith(a, "@"))
  {
    assert ("@" + a)[..1] == "@" && ("@" + b)[..1] == "@";
    if "@" + a == "@" + b {
      assert a == ("@" + a)[1..] == ("@" + b)[1..] == b;
    }
  }

  /** The marker an OutputParameter strips is put back at execution, so the
      stored name binds like the given one, except when the given one starts
      with "@@". */
  lemma BoundNameOfStoredOutputName(name: string)
    ensures BoundName(StripMarker(name)) == BoundName(name) <==> !StartsWith(name, "@@")
  {
    StripMarkerRemovesOne(name);
    StripMarkerKeepsSecondMarker(name);
    if StartsWith(name, "@@") {
      assert |BoundName(StripMarker(name))| < |BoundName(name)|;
    }
  }

  /** The command reports a parameter under its bound name with the marker
      removed; for a declared output that is the stored name itself. */
  lemma StoredOutputNameIsReportedName(name: string)
    requires !StartsWith(name, "@@")
    ensures StripMarker(BoundName(StripMarker(name))) == StripMarker(name)
  {
    StripMarkerKeepsSecondMarker(name);
    var stored := StripMarker(name);
    assert ("@" + stored)[..1] == "@";
    assert ("@" + stored)[1..] == stored;
  }

  /** The names a set of input keys is bound under. Two keys that bind alike
      give one name: the later Add replaces the earlier parameter. */
  function BoundNames(keys: set<string>): set<string>
  {
    set n | n in keys :: BoundName(n)
  }

  /** The names the declared outputs are bound under. */
  function BoundOutputNames(outputs: seq<OutputParameter>): set<string>
  {
    set k | 0 <= k < |outputs| :: BoundName(outputs[k].name)
  }

  /** The command lists each bound parameter under its name without the
      leading marker. */
  function ReportedNames(bound: set<string>): set<string>
  {
    set n | n in bound :: StripMarker(n)
  }

  /** Every name the builder binds, input or output, carries the marker. */
  lemma BoundNamesAreMarked(keys: set<string>, outputs: seq<OutputParameter>)
    ensures forall n :: n in BoundNames(keys) + BoundOutputNames(outputs) ==> StartsWith(n, "@")
  {
    forall n | n in BoundNames(keys) + BoundOutputNames(outputs) ensures StartsWith(n, "@") {
      if n in BoundNames(keys) {
        var key :| key in keys && BoundName(key) == n;
        BoundNameIsMarkedAndStable(key);
      } else {
        var k :| 0 <= k < |outputs| && BoundName(outputs[k].name) == n;
        BoundNameIsMarkedAndStable(outputs[k].name);
      }
    }
  }

  lemma BoundNamesSplit(keys: set<string>, key: string)
    requires key in keys
    ensures BoundNames(keys) == {BoundName(key)} + BoundNames(keys - {key})
  {
  }

  lemma BoundOutputNamesStep(outputs: seq<OutputParameter>, i: nat)
    requires i < |outputs|
    ensures BoundOutputNames(outputs[..i + 1]) == BoundOutputNames(outputs[..i]) + {BoundName(outputs[i].name)}
  {
    var a := outputs[..i + 1];
    var b := outputs[..i];
    forall n | n in BoundOutputNames(a) ensures n in BoundOutputNames(b) + {BoundName(outputs[i].name)} {
      var k :| 0 <= k < |a| && BoundName(a[k].name) == n;
      if k < i { assert a[k] == b[k]; }
    }
    forall n | n in BoundOutputNames(b) ensures n in BoundOutputNames(a) {
      var k :| 0 <= k < |b| && BoundName(b[k].name) == n;
      assert a[k] == b[k];
    }
    assert a[i] == outputs[i];
  }

  /** Some executed parameter name equals `name` once both are trimmed. */
  predicate Reported(name: string, executed: set<string>)
  {
    exists p :: p in executed && Trim(p) == Trim(name)
  }

  /** The read-back's filter, as a function value. */
  function ReportedBy(executed: set<string>): string -> bool
  {
    name => Reported(name, executed)
  }

  /** The output dictionary the procedure run returns: each declared output
      that passes `kept`, in declaration order, under its stored name with the
      value looked up for it. A second output with the same name fails at
      `Dictionary.Add`. */
  function ReadBack(acc: map<string, Value>, outputs: seq<OutputParameter>,
                    kept: string -> bool, lookup: string -> Value): Result<map<string, Value>, Exception>
    decreases |outputs|
  {
    if |outputs| == 0 then Success(acc)
    else
      var name := outputs[0].name;
      if !kept(name) then ReadBack(acc, outputs[1..], kept, lookup)
      else if name in acc then Failure(DuplicateKey(name))
      else ReadBack(acc[name := lookup(name)], outputs[1..], kept, lookup)
  }

  function KeptNames(outputs: seq<OutputParameter>, kept: string -> bool): set<string>
  {
    set k | 0 <= k < |outputs| && kept(outputs[k].name) :: outputs[k].name
  }

  /** No output whose name passes `kept` repeats a name in `acc` or the name
      of an earlier output that passes `kept`. */
  predicate OnceAmong(acc: map<string, Value>, outputs: seq<OutputParameter>, kept: string -> bool)
  {
    && (forall k :: 0 <= k < |outputs| && kept(outputs[k].name) ==> outputs[k].name !in acc)
    && (forall i, j ::
          0 <= i < j < |outputs| && kept(outputs[i].name) && kept(outputs[j].name)
          ==> outputs[i].name != outputs[j].name)
  }

  lemma KeptNamesSplit(outputs: seq<OutputParameter>, kept: string -> bool)
    requires |outputs| > 0
    ensures KeptNames(outputs, kept) ==
      (if kept(outputs[0].name) then {outputs[0].name} else {}) + KeptNames(outputs[1..], kept)
  {
    var rest := outputs[1..];
    forall n | n in KeptNames(rest, kept) ensures n in KeptNames(outputs, kept) {
      var k :| 0 <= k < |rest| && kept(rest[k].name) && rest[k].name == n;
      assert outputs[k + 1] == rest[k];
    }
    forall n | n in KeptNames(outputs, kept)
      ensures n in (if kept(outputs[0].name) then {outputs[0].name} else {}) + KeptNames(rest, kept)
    {
      var k :| 0 <= k < |outputs| && kept(outputs[k].name) && outputs[k].name == n;
      if k > 0 { assert rest[k - 1] == outputs[k]; }
    }
  }

  lemma OnceAmongDropsFirst(acc: map<string, Value>, outputs: seq<OutputParameter>, kept: string -> bool, v: Value)
    requires |outputs| > 0 && OnceAmong(acc, outputs, kept)
    ensures OnceAmong(if kept(outputs[0].name) then acc[outputs[0].name := v] else acc, outputs[1..], kept)
  {
    var acc' := if kept(outputs[0].name) then acc[outputs[0].name := v] else acc;
    var rest := outputs[1..];
    forall k | 0 <= k < |rest| && kept(rest[k].name)
      ensures rest[k].name !in acc'
    {
      assert rest[k] == outputs[k + 1];
    }
    forall i, j | 0 <= i < j < |rest| && kept(rest[i].name) && kept(rest[j].name)
      ensures rest[i].name != rest[j].name
    {
      assert rest[i] == outputs[i + 1] && rest[j] == outputs[j + 1];
    }
  }

  lemma OnceAmongAddsFirst(acc: map<string, Value>, outputs: seq<OutputParameter>, kept: string -> bool, v: Value)
    requires |outputs| > 0
    requires kept(outputs[0].name) ==> outputs[0].name !in acc
    requires OnceAmong(if kept(outputs[0].name) then acc[outputs[0].name := v] else acc, outputs[1..], kept)
    ensures OnceAmong(acc, outputs, kept)
  {
    var rest := outputs[1..];
    forall k | 0 <= k < |outputs| && kept(outputs[k].name)
      ensures outputs[k].name !in acc
    {
      if k > 0 { assert outputs[k] == rest[k - 1]; }
    }
    forall i, j | 0 <= i < j < |outputs| && kept(outputs[i].name) && kept(outputs[j].name)
      ensures outputs[i].name != outputs[j].name
    {
      assert outputs[j] == rest[j - 1];
      if i > 0 { assert outputs[i] == rest[i - 1]; }
    }
  }

  /** The read-back completes exactly when no kept name repeats; when it
      fails, it fails on a kept name. */
  lemma {:induction false} ReadBackSucceedsIff(acc: map<string, Value>, outputs: seq<OutputParameter>,
                                               kept: string -> bool, lookup: string -> Value)
    ensures ReadBack(acc, outputs, kept, lookup).Success? <==> OnceAmong(acc, outputs, kept)
    ensures ReadBack(acc, outputs, kept, lookup).Failure? ==>
      && ReadBack(acc, outputs, kept, lookup).error.DuplicateKey?
      && ReadBack(acc, outputs, kept, lookup).error.key in KeptNames(outputs, kept)
    decreases |outputs|
  {
    if |outputs| > 0 {
      var name := outputs[0].name;
      KeptNamesSplit(outputs, kept);
      if OnceAmong(acc, outputs, kept) {
        OnceAmongDropsFirst(acc, outputs, kept, lookup(name));
      }
      if !kept(name) {
        ReadBackSucceedsIff(acc, outputs[1..], kept, lookup);
        if OnceAmong(acc, outputs[1..], kept) {
          OnceAmongAddsFirst(acc, outputs, kept, lookup(name));
        }
      } else if name !in acc {
        ReadBackSucceedsIff(acc[name := lookup(name)], outputs[1..], kept, lookup);
        if OnceAmong(acc[name := lookup(name)], outputs[1..], kept) {
          OnceAmongAddsFirst(acc, outputs, kept, lookup(name));
        }
      }
    }
  }

  /** A completed read-back holds what was there plus every kept name. */
  lemma {:induction false} ReadBackKeys(acc: map<string, Value>, outputs: seq<OutputParameter>,
                                        kept: string -> bool, lookup: string -> Value)
    requires ReadBack(acc, outputs, kept, lookup).Success?
    ensures ReadBack(acc, outputs, kept, lookup).value.Keys == acc.Keys + KeptNames(outputs, kept)
    decreases |outputs|
  {
    if |outputs| > 0 {
      var name := outputs[0].name;
      KeptNamesSplit(outputs, kept);
      if !kept(name) {
        ReadBackKeys(acc, outputs[1..], kept, lookup);
      } else {
        ReadBackKeys(acc[name := lookup(name)], outputs[1..], kept, lookup);
      }
    }
  }

  /** In a completed read-back every name that was not there before holds
      the value looked up for it. */
  lemma {:induction false} ReadBackValues(acc: map<string, Value>, outputs: seq<OutputParameter>,
                                          kept: string -> bool, lookup: string -> Value)
    requires ReadBack(acc, outputs, kept, lookup).Success?
    ensures forall n :: n in ReadBack(acc, outputs, kept, lookup).value ==>
      ReadBack(acc, outputs, kept, lookup).value[n] == if n in acc then acc[n] else lookup(n)
    decreases |outputs|
  {
    if |outputs| > 0 {
      var name := outputs[0].name;
      if !kept(name) {
        ReadBackValues(acc, outputs[1..], kept, lookup);
      } else {
        ReadBackValues(acc[name := lookup(name)], outputs[1..], kept, lookup);
      }
    }
  }

  /** When every declared output is among the executed names and no two share
      a name, every one of them is read back, and nothing else. */
  lemma DeclaredOutputsAreReadBack(outputs: seq<OutputParameter>, executed: set<string>, lookup: string -> Value)
    requires forall k :: 0 <= k < |outputs| ==> outputs[k].name in executed
    requires forall i, j :: 0 <= i < j < |outputs| ==> outputs[i].name != outputs[j].name
    ensures ReadBack(map[], outputs, ReportedBy(executed), lookup).Success?
    ensures ReadBack(map[], outputs, ReportedBy(executed), lookup).value.Keys == set k | 0 <= k < |outputs| :: outputs[k].name
  {
    var kept := ReportedBy(executed);
    forall k | 0 <= k < |outputs| ensures kept(outputs[k].name) {
      assert outputs[k].name in executed;
    }
    ReadBackSucceedsIff(map[], outputs, kept, lookup);
    ReadBackKeys(map[], outputs, kept, lookup);
  }

  /** The read-back of a run that bound the given input keys and the declared
      outputs, and reports every bound name without its marker: with distinct
      stored names it completes, holds only declared names, and holds every
      output whose declared name did not start with "@@". */
  lemma BoundOutputsAreReadBack(keys: set<string>, declared: seq<string>, outputs: seq<OutputParameter>,
                                lookup: string -> Value)
    requires |declared| == |outputs|
    requires forall k :: 0 <= k < |outputs| ==> outputs[k].name == StripMarker(declared[k])
    requires forall i, j :: 0 <= i < j < |outputs| ==> outputs[i].name != outputs[j].name
    ensures ReadBack(map[], outputs, ReportedBy(ReportedNames(BoundNames(keys) + BoundOutputNames(outputs))), lookup).Success?
    ensures forall k :: 0 <= k < |outputs| && !StartsWith(declared[k], "@@") ==>
      outputs[k].name in ReadBack(map[], outputs, ReportedBy(ReportedNames(BoundNames(keys) + BoundOutputNames(outputs))), lookup).value
    ensures ReadBack(map[], outputs, ReportedBy(ReportedNames(BoundNames(keys) + BoundOutputNames(outputs))), lookup).value.Keys
      <= set k | 0 <= k < |outputs| :: outputs[k].name
  {
    var executed := ReportedNames(BoundNames(keys) + BoundOutputNames(outputs));
    var kept := ReportedBy(executed);
    ReadBackSucceedsIff(map[], outputs, kept, lookup);
    ReadBackKeys(map[], outputs, kept, lookup);
    forall k | 0 <= k < |outputs| && !StartsWith(declared[k], "@@")
      ensures outputs[k].name in KeptNames(outputs, kept)
    {
      var stored := outputs[k].name;
      StripMarkerKeepsSecondMarker(declared[k]);
      assert BoundName(stored) == "@" + stored;
      assert "@" + stored in BoundOutputNames(outputs);
      assert ("@" + stored)[..1] == "@" && ("@" + stored)[1..] == stored;
      assert stored in executed;
      assert kept(stored);
    }
  }

  /** "@@x" is stored as "@x", which binds unchanged and is reported as "x". */
  lemma DoubleMarkedOutputIsReportedBare(dbType: DbType)
    ensures ReportedNames(BoundOutputNames([OutputParameter(StripMarker("@@x"), dbType, None, None, None)])) == {"x"}
  {
    var outputs := [OutputParameter(StripMarker("@@x"), dbType, None, None, None)];
    assert BoundOutputNames(outputs) == {"@x"} by {
      assert StripMarker("@@x") == "@x";
      assert BoundName(outputs[0].name) == "@x";
    }
    assert StripMarker("@x") == "x";
  }

  /** A reported "x" does not match the stored "@x": trimming keeps the marker. */
  lemma MarkedNameIsNotReportedBare()
    ensures !Reported("@x", {"x"})
  {
    assert TrimStart("@x") == "@x";
    assert TrimEnd("@x") == "@x";
    forall p | p in {"x"} ensures Trim(p) != Trim("@x") {
      assert |Trim(p)| <= 1;
    }
  }

  /** An output declared as "@@x" is stored as "@x", bound as "@x" and
      reported as "x", so it is not read back: the result is empty. */
  lemma DoubleMarkedOutputIsNotReadBack(dbType: DbType, lookup: string -> Value)
    ensures var outputs := [OutputParameter(StripMarker("@@x"), dbType, None, None, None)];
      ReadBack(map[], outputs, ReportedBy(ReportedNames(BoundOutputNames(outputs))), lookup) == Success(map[])
  {
    var outputs := [OutputParameter(StripMarker("@@x"), dbType, None, None, None)];
    DoubleMarkedOutputIsReportedBare(dbType);
    MarkedNameIsNotReportedBare();
    var kept := ReportedBy({"x"});
    assert ReadBack(map[], outputs, kept, lookup) == ReadBack(map[], outputs[1..], kept, lookup);
    assert outputs[1..] == [];
  }
}
