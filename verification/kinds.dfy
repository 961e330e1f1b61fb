/** The kinds of data a pool holds, the keyword arguments each kind's constructor takes,
    and the capabilities each kind's class is built with. */
module Kinds {
  import opened Wrappers
  import opened Samples

  /** The data-type enumeration: one constructor per member. */
  datatype DataType =
    | FilePaths | FolderPaths | FileList | TemporalSignal | FreqSignal | FreqLimit
    | TempLimit | Ffts | Constants | String | Ints

  /** The integer value of each enumeration member, the key of the pool's class table. */
  function EnumValue(dt: DataType): nat
  {
    match dt
    case FilePaths => 0
    case FolderPaths => 1
    case FileList => 2
    case TemporalSignal => 3
    case FreqSignal => 4
    case FreqLimit => 5
    case TempLimit => 6
    case Ffts => 7
    case Constants => 8
    case String => 9
    case Ints => 10
  }

  /** Distinct members have distinct values, so a table keyed by value is a function of the member. */
  lemma EnumValueInjective(a: DataType, b: DataType)
    ensures EnumValue(a) == EnumValue(b) <==> a == b
  {
  }

  /** The name of each enumeration member. */
  function MemberName(dt: DataType): string
  {
    match dt
    case FilePaths => "FILE_PATHS"
    case FolderPaths => "FOLDER_PATHS"
    case FileList => "FILE_LIST"
    case TemporalSignal => "TEMPORAL_SIGNAL"
    case FreqSignal => "FREQ_SIGNAL"
    case FreqLimit => "FREQ_LIMIT"
    case TempLimit => "TEMP_LIMIT"
    case Ffts => "FFTS"
    case Constants => "CONSTANTS"
    case String => "STR"
    case Ints => "INTS"
  }

  /** Attribute access `Data_Type.<name>`: a name that is not a member raises. */
  function MemberByName(name: string): (r: Result<DataType>)
    ensures r.Ok? ==> MemberName(r.value) == name
    ensures r.Err? ==> r.error == UnknownMember
  {
    if name == "FILE_PATHS" then Ok(FilePaths)
    else if name == "FOLDER_PATHS" then Ok(FolderPaths)
    else if name == "FILE_LIST" then Ok(FileList)
    else if name == "TEMPORAL_SIGNAL" then Ok(TemporalSignal)
    else if name == "FREQ_SIGNAL" then Ok(FreqSignal)
    else if name == "FREQ_LIMIT" then Ok(FreqLimit)
    else if name == "TEMP_LIMIT" then Ok(TempLimit)
    else if name == "FFTS" then Ok(Ffts)
    else if name == "CONSTANTS" then Ok(Constants)
    else if name == "STR" then Ok(String)
    else if name == "INTS" then Ok(Ints)
    else Err(UnknownMember)
  }

  /** The member names the pool's class table is built from, as written: the two limit kinds
      are spelt with a trailing S that the enumeration does not have. */
  const TableNamesAsWritten: seq<string> :=
    ["FILE_PATHS", "FOLDER_PATHS", "FILE_LIST", "TEMPORAL_SIGNAL", "FREQ_SIGNAL", "FFTS",
     "CONSTANTS", "STR", "INTS", "FREQ_LIMITS", "TEMP_LIMITS"]

  /** The member names of the class table with the limit kinds spelt as the enumeration spells them. */
  const TableNames: seq<string> :=
    ["FILE_PATHS", "FOLDER_PATHS", "FILE_LIST", "TEMPORAL_SIGNAL", "FREQ_SIGNAL", "FFTS",
     "CONSTANTS", "STR", "INTS", "FREQ_LIMIT", "TEMP_LIMIT"]

  /** Building the dictionary `{Data_Type.<name>.value: class}` entry by entry: the first name
      that is not a member aborts the whole construction. */
  function ClassTable(names: seq<string>): (r: Result<map<nat, DataType>>)
    ensures r.Ok? <==> forall i :: 0 <= i < |names| ==> MemberByName(names[i]).Ok?
    ensures r.Err? ==> r.error == UnknownMember
    ensures r.Ok? ==> forall v :: v in r.value ==> EnumValue(r.value[v]) == v
    ensures r.Ok? ==> forall i :: 0 <= i < |names| ==> EnumValue(MemberByName(names[i]).value) in r.value
  {
    if names == [] then Ok(map[])
    else
      var dt :- MemberByName(names[0]);
      var rest :- ClassTable(names[1..]);
      assert forall i :: 1 <= i < |names| ==> names[i] == names[1..][i - 1];
      Ok(rest[EnumValue(dt) := dt])
  }

  /** Every member is found under its own name. */
  lemma MemberByNameComplete(dt: DataType)
    ensures MemberByName(MemberName(dt)) == Ok(dt)
  {
  }

  /** Where each member's name sits in the corrected list. */
  function TableIndex(dt: DataType): (i: nat)
    ensures i < |TableNames| && TableNames[i] == MemberName(dt)
  {
    match dt
    case FilePaths => 0
    case FolderPaths => 1
    case FileList => 2
    case TemporalSignal => 3
    case FreqSignal => 4
    case Ffts => 5
    case Constants => 6
    case String => 7
    case Ints => 8
    case FreqLimit => 9
    case TempLimit => 10
  }

  /** As written the table cannot be built at all, so every registration fails before a record
      is created. */
  lemma ClassTableAsWrittenFails()
    ensures ClassTable(TableNamesAsWritten) == Err(UnknownMember)
  {
    assert MemberByName(TableNamesAsWritten[9]).Err?;
  }

  /** With the names corrected the table has a class for `dt`. */
  lemma ClassTableFinds(dt: DataType)
    ensures ClassTable(TableNames).Ok? && EnumValue(dt) in ClassTable(TableNames).value
  {
    ClassTableComplete();
  }

  /** With the names corrected the table maps the value of every member to that member. */
  lemma ClassTableComplete()
    ensures ClassTable(TableNames).Ok?
    ensures forall dt :: EnumValue(dt) in ClassTable(TableNames).value && ClassTable(TableNames).value[EnumValue(dt)] == dt
  {
    forall i | 0 <= i < |TableNames| ensures MemberByName(TableNames[i]).Ok? {
      assert TableNames[i] in TableNames;
    }
    var table := ClassTable(TableNames).value;
    forall dt: DataType ensures EnumValue(dt) in table && table[EnumValue(dt)] == dt {
      var i := TableIndex(dt);
      MemberByNameComplete(dt);
      assert EnumValue(dt) in table;
      EnumValueInjective(table[EnumValue(dt)], dt);
    }
  }

  /** A keyword-argument value as the constructors receive it. */
  datatype Value = Number(x: real) | Word(s: string) | Null

  /** Keyword arguments passed through to a record's constructor. */
  type Kwargs = map<string, Value>

  /** The kind-specific attributes a record's constructor stores. */
  datatype KindParams =
    | NoParams
    | TemporalParams(timeStep: Value, unit: Value, tmin: Value)
    | FreqParams(freqStep: Value, unit: Value, fmin: Value, timestamp: Value)
    | FftsParams(freqStep: Value, fmin: Value, unit: Value)
    | LimitParams(unit: Value)

  /** Keyword arguments a kind's constructor cannot do without. */
  function Required(dt: DataType): set<string>
  {
    match dt
    case TemporalSignal => {"time_step", "unit"}
    case FreqSignal => {"freq_step", "unit"}
    case Ffts => {"freq_step", "fmin", "unit"}
    case FreqLimit => {"unit"}
    case TempLimit => {"unit"}
    case _ => {}
  }

  /** Keyword arguments a kind's constructor accepts with a default. */
  function Optional(dt: DataType): set<string>
  {
    match dt
    case TemporalSignal => {"tmin"}
    case FreqSignal => {"fmin", "timestamp"}
    case Ffts => {"datapool"}
    case _ => {}
  }

  function Get(kw: Kwargs, key: string, default: Value): Value
  {
    if key in kw then kw[key] else default
  }

  /** The attribute stored under a keyword name, if the parameters carry one. */
  function Attribute(p: KindParams, key: string): Option<Value>
  {
    match p
    case NoParams => None
    case TemporalParams(dt, u, t0) =>
      if key == "time_step" then Some(dt) else if key == "unit" then Some(u)
      else if key == "tmin" then Some(t0) else None
    case FreqParams(df, u, f0, ts) =>
      if key == "freq_step" then Some(df) else if key == "unit" then Some(u)
      else if key == "fmin" then Some(f0) else if key == "timestamp" then Some(ts) else None
    case FftsParams(df, f0, u) =>
      if key == "freq_step" then Some(df) else if key == "fmin" then Some(f0)
      else if key == "unit" then Some(u) else None
    case LimitParams(u) =>
      if key == "unit" then Some(u) else None
  }

  /** The attribute shape each kind's class has. */
  predicate Fits(dt: DataType, p: KindParams)
  {
    match dt
    case TemporalSignal => p.TemporalParams?
    case FreqSignal => p.FreqParams?
    case Ffts => p.FftsParams?
    case FreqLimit => p.LimitParams?
    case TempLimit => p.LimitParams?
    case _ => p.NoParams?
  }

  /** Calling a kind's constructor with keyword arguments: a missing required argument or an
      unknown one is a TypeError, which the pool reports as a ValueError. Defaults are 0.0. */
  function Instantiate(dt: DataType, kw: Kwargs): (r: Result<KindParams>)
    ensures r.Ok? <==> Required(dt) <= kw.Keys <= Required(dt) + Optional(dt)
    ensures !r.Ok? ==> r == Err(InvalidArguments)
    ensures r.Ok? ==> Fits(dt, r.value)
    ensures r.Ok? ==> forall key :: key in kw && key != "datapool" ==> Attribute(r.value, key) == Some(kw[key])
    ensures r.Ok? ==> forall key :: key in Optional(dt) && key !in kw && key != "datapool" ==>
      Attribute(r.value, key) == Some(Number(0.0))
  {
    if !(Required(dt) <= kw.Keys <= Required(dt) + Optional(dt)) then Err(InvalidArguments)
    else
      match dt
      case TemporalSignal =>
        Ok(TemporalParams(kw["time_step"], kw["unit"], Get(kw, "tmin", Number(0.0))))
      case FreqSignal =>
        Ok(FreqParams(kw["freq_step"], kw["unit"], Get(kw, "fmin", Number(0.0)), Get(kw, "timestamp", Number(0.0))))
      case Ffts =>
        Ok(FftsParams(kw["freq_step"], kw["fmin"], kw["unit"]))
      case FreqLimit => Ok(LimitParams(kw["unit"]))
      case TempLimit => Ok(LimitParams(kw["unit"]))
      case _ => Ok(NoParams)
  }

  /** The sample type each kind's class fixes. */
  function SampleTypeOf(dt: DataType): SampleType
  {
    match dt
    case FilePaths => Str
    case FolderPaths => Str
    case FileList => Str
    case String => Str
    case Ints => Int32
    case _ => Float32
  }

  /** Signals are the only kinds built with chunked reading and RAM/file conversion. */
  predicate Chunkable(dt: DataType)
  {
    dt == TemporalSignal || dt == FreqSignal
  }

  /** Kinds whose constructor starts the data as an empty list instead of None. */
  predicate StartsEmptyList(dt: DataType)
  {
    dt == Ffts || dt == FreqLimit || dt == TempLimit
  }

  /** A signal missing its step or unit, which storing refuses: only the two signal shapes are
      checked, on their step and their unit attributes. */
  predicate LacksDefinitions(p: KindParams): (r: bool)
    ensures r ==> p.TemporalParams? || p.FreqParams?
    ensures p.TemporalParams? ==> (r <==> Attribute(p, "time_step") == Some(Null) || Attribute(p, "unit") == Some(Null))
    ensures p.FreqParams? ==> (r <==> Attribute(p, "freq_step") == Some(Null) || Attribute(p, "unit") == Some(Null))
  {
    match p
    case TemporalParams(dt, u, _) => dt == Null || u == Null
    case FreqParams(df, u, _, _) => df == Null || u == Null
    case _ => false
  }

  /** On a record built from keyword arguments, the definitions check refuses exactly a signal
      whose step or unit argument was None. */
  lemma DefinitionsExactly(dt: DataType, kw: Kwargs)
    requires Instantiate(dt, kw).Ok?
    ensures LacksDefinitions(Instantiate(dt, kw).value) <==>
      Chunkable(dt) && exists key :: key in Required(dt) && kw[key] == Null
  {
    var p := Instantiate(dt, kw).value;
    if dt == TemporalSignal {
      assert Attribute(p, "time_step") == Some(kw["time_step"]);
      assert Attribute(p, "unit") == Some(kw["unit"]);
      assert "time_step" in Required(dt) && "unit" in Required(dt);
    } else if dt == FreqSignal {
      assert Attribute(p, "freq_step") == Some(kw["freq_step"]);
      assert Attribute(p, "unit") == Some(kw["unit"]);
      assert "freq_step" in Required(dt) && "unit" in Required(dt);
    }
  }

  /** A signal constructed from non-null step and unit arguments passes the definitions check. */
  lemma DefinitionsFromArguments(dt: DataType, kw: Kwargs)
    requires Instantiate(dt, kw).Ok?
    requires forall key :: key in Required(dt) ==> kw[key] != Null
    ensures !LacksDefinitions(Instantiate(dt, kw).value)
  {
    var p := Instantiate(dt, kw).value;
    if dt == TemporalSignal {
      assert Attribute(p, "time_step") == Some(kw["time_step"]);
      assert Attribute(p, "unit") == Some(kw["unit"]);
    } else if dt == FreqSignal {
      assert Attribute(p, "freq_step") == Some(kw["freq_step"]);
      assert Attribute(p, "unit") == Some(kw["unit"]);
    }
  }
}
