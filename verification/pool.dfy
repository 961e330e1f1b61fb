/** The data pool: a registry of records keyed by identifier, the binding of each record to
    the source that registered it (with its write lock and delete protection), the subscriber
    rows with their acknowledgment flags, and the files the records write. Every operation is
    a function from the pool to the next pool and what the call returns or raises. */
module DataPool {
  import opened Wrappers
  import opened Kinds
  import opened Chunks
  import opened Records

  datatype StorageType = Ram | File

  /** A registry row. */
  datatype Entry<T> = Entry(dataType: DataType, name: string, storage: StorageType, obj: Record<T>)

  /** A source-to-data row. */
  datatype SourceBinding = SourceBinding(source: string, locked: bool, protected: bool)

  /** A subscriber-to-data row; rows are kept in insertion order and may repeat. */
  datatype Subscription = Subscription(subscriber: string, dataId: DataId, acknowledged: bool)

  datatype Pool<T> = Pool(
    registry: map<DataId, Entry<T>>,
    sources: map<DataId, SourceBinding>,
    subscriptions: seq<Subscription>,
    files: Fs<T>)

  /** The pool after a call, and the call's value or exception. A call that raises may already
      have changed the pool. */
  datatype Reply<T, X> = Reply(pool: Pool<T>, result: Result<X>)

  /** What a source hands to `store_data`. */
  datatype Payload<T> =
    | ListObj(items: seq<T>)           // a list or array
    | StrObj(text: seq<T>)             // a Python string
    | Generator(chunks: seq<seq<T>>)   // any other iterable, consumed chunk by chunk

  function EmptyPool<T>(fs: Fs<T>): Pool<T>
  {
    Pool(map[], map[], [], fs)
  }

  // ---------------------------------------------------------------- invariant

  /** What holds of a registry row at all times: it describes its own record, its storage
      column agrees with the record's backend, and a record's file is `<folder>/<id>.dat`
      and exists. */
  predicate EntryValid<T>(id: DataId, e: Entry<T>, fs: Fs<T>)
  {
    && e.obj.id == id
    && e.obj.dataType == e.dataType
    && (e.storage == File <==> e.obj.inFile)
    && OwnFile(e.obj, fs)
  }

  /** A record's file path, once set, is its own `<folder>/<id>.dat`, belongs to a file record,
      and names a file that exists. */
  predicate OwnFile<T>(obj: Record<T>, fs: Fs<T>)
  {
    obj.filePath.Some? ==> obj.inFile && obj.filePath.value.id == obj.id && obj.filePath.value in fs
  }

  /** Every record has exactly one source row, and every row is valid. */
  predicate Valid<T>(p: Pool<T>)
  {
    && p.registry.Keys == p.sources.Keys
    && forall id :: id in p.registry ==> EntryValid(id, p.registry[id], p.files)
  }

  lemma EmptyValid<T>(fs: Fs<T>)
    ensures Valid(EmptyPool(fs))
  {
  }

  // ---------------------------------------------------------------- subscriptions

  predicate Subscribed(subs: seq<Subscription>, id: DataId, who: string)
  {
    exists k :: 0 <= k < |subs| && subs[k].dataId == id && subs[k].subscriber == who
  }

  /** The first row binding `who` to `id`, the one an acknowledgment marks. */
  function FirstMatch(subs: seq<Subscription>, id: DataId, who: string): (r: Option<nat>)
    ensures r.None? <==> !Subscribed(subs, id, who)
    ensures r.Some? ==> r.value < |subs| && subs[r.value].dataId == id && subs[r.value].subscriber == who
    ensures r.Some? ==> forall k :: 0 <= k < r.value ==> !(subs[k].dataId == id && subs[k].subscriber == who)
  {
    if subs == [] then None
    else if subs[0].dataId == id && subs[0].subscriber == who then Some(0)
    else
      var rest := FirstMatch(subs[1..], id, who);
      assert forall k :: 1 <= k < |subs| ==> subs[k] == subs[1..][k - 1];
      if rest.None? then None else Some(rest.value + 1)
  }

  /** How many rows for `id` still wait for their acknowledgment. */
  function Pending(subs: seq<Subscription>, id: DataId): nat
  {
    if subs == [] then 0
    else (if subs[0].dataId == id && !subs[0].acknowledged then 1 else 0) + Pending(subs[1..], id)
  }

  lemma {:induction false} PendingZero(subs: seq<Subscription>, id: DataId)
    ensures Pending(subs, id) == 0 <==> forall k :: 0 <= k < |subs| && subs[k].dataId == id ==> subs[k].acknowledged
  {
    if subs != [] {
      PendingZero(subs[1..], id);
      assert forall k :: 1 <= k < |subs| ==> subs[k] == subs[1..][k - 1];
    }
  }

  /** `all()` over the acknowledgment column of the rows for `id`: no row for `id` is still
      waiting, which holds in particular when there are none. */
  predicate AllAcknowledged(subs: seq<Subscription>, id: DataId): (r: bool)
    ensures r <==> Pending(subs, id) == 0
  {
    PendingZero(subs, id);
    forall k :: 0 <= k < |subs| && subs[k].dataId == id ==> subs[k].acknowledged
  }

  /** The rows that do not concern `id`, in order. */
  function Without(subs: seq<Subscription>, id: DataId): (r: seq<Subscription>)
    ensures |r| <= |subs|
  {
    if subs == [] then []
    else if subs[0].dataId == id then Without(subs[1..], id)
    else [subs[0]] + Without(subs[1..], id)
  }

  /** The filter keeps every row not about `id` as often as it occurs, and no row about `id`. */
  lemma {:induction false} WithoutCounts(subs: seq<Subscription>, id: DataId)
    ensures forall s :: multiset(Without(subs, id))[s] == if s.dataId == id then 0 else multiset(subs)[s]
    ensures forall s :: s in Without(subs, id) <==> s in subs && s.dataId != id
  {
    if subs != [] {
      assert subs == [subs[0]] + subs[1..];
      WithoutCounts(subs[1..], id);
    }
  }

  /** One step of the filter: a row heading the sequence. */
  lemma WithoutCons(x: Subscription, rest: seq<Subscription>, id: DataId)
    ensures Without([x] + rest, id) == if x.dataId == id then Without(rest, id) else [x] + Without(rest, id)
  {
    assert ([x] + rest)[0] == x && ([x] + rest)[1..] == rest;
  }

  /** Filtering distributes over concatenation, so the surviving rows keep their order. */
  lemma {:induction false} WithoutAppend(a: seq<Subscription>, b: seq<Subscription>, id: DataId)
    ensures Without(a + b, id) == Without(a, id) + Without(b, id)
  {
    if a == [] {
      assert a + b == b;
    } else {
      var x, t := a[0], a[1..];
      assert (a + b)[0] == x && (a + b)[1..] == t + b;
      WithoutAppend(t, b, id);
      if x.dataId != id {
        assert [x] + (Without(t, id) + Without(b, id)) == ([x] + Without(t, id)) + Without(b, id);
      }
    }
  }

  /** Rewriting a row of `id` with another row of `id` does not change what survives. */
  lemma {:induction false} WithoutUpdate(subs: seq<Subscription>, k: nat, s: Subscription, id: DataId)
    requires k < |subs| && subs[k].dataId == id && s.dataId == id
    ensures Without(subs[k := s], id) == Without(subs, id)
  {
    if k == 0 {
      assert subs[k := s][1..] == subs[1..];
    } else {
      assert subs[k := s][1..] == subs[1..][k - 1 := s];
      WithoutUpdate(subs[1..], k - 1, s, id);
    }
  }

  /** Appends a row binding `who` to `id`, unacknowledged. Nothing is checked. */
  function AddSubscriber<T>(p: Pool<T>, id: DataId, who: string): (r: Pool<T>)
    ensures |r.subscriptions| == |p.subscriptions| + 1 && r.subscriptions[..|p.subscriptions|] == p.subscriptions
    ensures r.subscriptions[|p.subscriptions|] == Subscription(who, id, false)
    ensures Subscribed(r.subscriptions, id, who)
    ensures !AllAcknowledged(r.subscriptions, id)
    ensures r.registry == p.registry && r.sources == p.sources && r.files == p.files
    ensures Valid(p) ==> Valid(r)
  {
    var subs := p.subscriptions + [Subscription(who, id, false)];
    assert subs[|subs| - 1].dataId == id;
    p.(subscriptions := subs)
  }

  // ---------------------------------------------------------------- registration

  /** Registration with a class table built from `names`: the table is built first, then the
      kind is looked up in it, then its class is instantiated with the keyword arguments. The
      new record is registered under `id`, with its source row locked for the first write. */
  function RegisterWith<T>(names: seq<string>, p: Pool<T>, id: DataId, dt: DataType, name: string, source: string,
                           protected: bool, inFile: bool, kw: Kwargs): (r: Reply<T, DataId>)
    requires id !in p.registry && id !in p.sources
    ensures ClassTable(names).Err? ==> r == Reply(p, Err(UnknownMember))
    ensures r.result.Err? ==> r.pool == p
    ensures r.result.Ok? ==> r.result.value == id && Instantiate(dt, kw).Ok?
    ensures r.result.Ok? ==>
      && r.pool.registry == p.registry[id := Entry(dt, name, if inFile then File else Ram,
                                                   NewRecord(id, dt, Instantiate(dt, kw).value, name, inFile))]
      && r.pool.sources == p.sources[id := SourceBinding(source, true, protected)]
      && r.pool.subscriptions == p.subscriptions && r.pool.files == p.files
    ensures Valid(p) ==> Valid(r.pool)
  {
    match ClassTable(names)
    case Err(e) => Reply(p, Err(e))
    case Ok(table) =>
      if EnumValue(dt) !in table then Reply(p, Err(UnsupportedType))
      else
        match Instantiate(dt, kw)
        case Err(e) => Reply(p, Err(e))
        case Ok(params) =>
          var obj := NewRecord(id, dt, params, name, inFile);
          Reply(p.(registry := p.registry[id := Entry(dt, name, if inFile then File else Ram, obj)],
                   sources := p.sources[id := SourceBinding(source, true, protected)]),
                Ok(id))
  }

  /** Registration as written: the class table names two members the enumeration lacks. */
  function RegisterAsWritten<T>(p: Pool<T>, id: DataId, dt: DataType, name: string, source: string,
                                protected: bool, inFile: bool, kw: Kwargs): (r: Reply<T, DataId>)
    requires id !in p.registry && id !in p.sources
    ensures r == Reply(p, Err(UnknownMember))
  {
    ClassTableAsWrittenFails();
    RegisterWith(TableNamesAsWritten, p, id, dt, name, source, protected, inFile, kw)
  }

  /** Registration with the class table corrected. `id` stands for the fresh identifier the
      pool draws. Registration succeeds exactly when the keyword arguments fit the kind. */
  function RegisterData<T>(p: Pool<T>, id: DataId, dt: DataType, name: string, source: string,
                           protected: bool, inFile: bool, kw: Kwargs): (r: Reply<T, DataId>)
    requires id !in p.registry && id !in p.sources
    ensures r.result.Ok? <==> Instantiate(dt, kw).Ok?
    ensures r.result.Err? ==> r == Reply(p, Err(InvalidArguments))
    ensures r.result.Ok? ==>
      && r.result.value == id
      && id in r.pool.registry && r.pool.registry[id].dataType == dt
      && r.pool.registry[id].obj.inFile == inFile && r.pool.registry[id].obj.numSamples == 0
      && r.pool.registry == p.registry[id := r.pool.registry[id]]
      && r.pool.sources == p.sources[id := SourceBinding(source, true, protected)]
      && r.pool.subscriptions == p.subscriptions && r.pool.files == p.files
    ensures Valid(p) ==> Valid(r.pool)
  {
    ClassTableFinds(dt);
    RegisterWith(TableNames, p, id, dt, name, source, protected, inFile, kw)
  }

  /** The register finding: whenever the keyword arguments fit the kind, registration fails as
      written and succeeds once the table is corrected. */
  lemma RegisterFinding<T>(p: Pool<T>, id: DataId, dt: DataType, name: string, source: string,
                           protected: bool, inFile: bool, kw: Kwargs)
    requires id !in p.registry && id !in p.sources
    requires Instantiate(dt, kw).Ok?
    ensures RegisterAsWritten(p, id, dt, name, source, protected, inFile, kw).result == Err(UnknownMember)
    ensures RegisterData(p, id, dt, name, source, protected, inFile, kw).result == Ok(id)
  {
  }

  // ---------------------------------------------------------------- locking

  /** Sets the lock flag of the record's source row; an unknown identifier changes nothing. */
  function SetLock<T>(p: Pool<T>, id: DataId, locked: bool): (r: Pool<T>)
    ensures id in p.sources ==> id in r.sources && r.sources[id] == p.sources[id].(locked := locked)
    ensures r.sources.Keys == p.sources.Keys
    ensures forall other :: other in p.sources && other != id ==> r.sources[other] == p.sources[other]
    ensures r.registry == p.registry && r.subscriptions == p.subscriptions && r.files == p.files
    ensures Valid(p) ==> Valid(r)
  {
    if id in p.sources then p.(sources := p.sources[id := p.sources[id].(locked := locked)]) else p
  }

  function LockData<T>(p: Pool<T>, id: DataId): (r: Pool<T>)
    ensures id in p.sources ==> id in r.sources && r.sources[id].locked
    ensures id in p.sources ==> r.sources[id].source == p.sources[id].source && r.sources[id].protected == p.sources[id].protected
    ensures r.sources.Keys == p.sources.Keys
    ensures forall other :: other in p.sources && other != id ==> r.sources[other] == p.sources[other]
    ensures r.registry == p.registry && r.subscriptions == p.subscriptions && r.files == p.files
  {
    SetLock(p, id, true)
  }

  function UnlockData<T>(p: Pool<T>, id: DataId): (r: Pool<T>)
    ensures id in p.sources ==> id in r.sources && !r.sources[id].locked
    ensures id in p.sources ==> r.sources[id].source == p.sources[id].source && r.sources[id].protected == p.sources[id].protected
    ensures r.sources.Keys == p.sources.Keys
    ensures forall other :: other in p.sources && other != id ==> r.sources[other] == p.sources[other]
    ensures r.registry == p.registry && r.subscriptions == p.subscriptions && r.files == p.files
  {
    SetLock(p, id, false)
  }

  /** Locking then unlocking returns every row to its state before, apart from the lock flag
      which ends up cleared. */
  lemma LockUnlock<T>(p: Pool<T>, id: DataId)
    requires id in p.sources && !p.sources[id].locked
    ensures UnlockData(LockData(p, id), id) == p
  {
    assert p.sources[id := p.sources[id]] == p.sources;
  }

  // ---------------------------------------------------------------- release and delete

  /** Drops a record's rows everywhere. */
  function DropRows<T>(p: Pool<T>, id: DataId): (r: Pool<T>)
    ensures r.registry.Keys == p.registry.Keys - {id} && r.sources.Keys == p.sources.Keys - {id}
    ensures forall other :: other in r.registry ==> r.registry[other] == p.registry[other]
    ensures forall other :: other in r.sources ==> r.sources[other] == p.sources[other]
    ensures r.subscriptions == Without(p.subscriptions, id) && r.files == p.files
  {
    p.(registry := p.registry - {id}, sources := p.sources - {id}, subscriptions := Without(p.subscriptions, id))
  }

  /** Removing a record's own file keeps every other record's file. */
  lemma DropRowsValid<T>(p: Pool<T>, id: DataId, fs: Fs<T>)
    requires Valid(p)
    requires forall path :: path in p.files && path.id != id ==> path in fs
    ensures Valid(DropRows(p, id).(files := fs))
  {
  }

  /** The release that follows the last acknowledgment: a RAM record is dropped, a file record
      has its file removed if it is still there, and the record's rows disappear. */
  function ReleaseData<T>(p: Pool<T>, id: DataId): (r: Reply<T, ()>)
    ensures id !in p.registry ==> r == Reply(p, Err(NotFound))
    ensures id in p.registry ==> r.result.Ok? && id !in r.pool.registry && id !in r.pool.sources
    ensures id in p.registry ==> forall s :: s in r.pool.subscriptions <==> s in p.subscriptions && s.dataId != id
    ensures id in p.registry ==>
      && r.pool.registry == p.registry - {id} && r.pool.sources == p.sources - {id}
      && r.pool.subscriptions == Without(p.subscriptions, id)
    ensures Valid(p) && id in p.registry ==>
      r.pool.files == if p.registry[id].obj.filePath.Some? then p.files - {p.registry[id].obj.filePath.value} else p.files
    ensures forall other :: other != id && other in p.registry ==> other in r.pool.registry && r.pool.registry[other] == p.registry[other]
    ensures Valid(p) ==> Valid(r.pool)
  {
    if id !in p.registry then Reply(p, Err(NotFound))
    else
      WithoutCounts(p.subscriptions, id);
      var e := p.registry[id];
      var fs := if e.storage == File && e.obj.filePath.Some? && e.obj.filePath.value in p.files
                then p.files - {e.obj.filePath.value} else p.files;
      Reply(DropRows(p, id).(files := fs), Ok(()))
  }

  /** `delete_data`: an unprotected record with a source row and a registry row loses its rows,
      then its storage; anything else is left alone silently. The file is removed after the
      rows, so a file that vanished raises with the rows already gone. */
  function DeleteData<T>(p: Pool<T>, id: DataId): (r: Reply<T, ()>)
    ensures !(id in p.sources && !p.sources[id].protected && id in p.registry) ==> r == Reply(p, Ok(()))
    ensures id in p.sources && !p.sources[id].protected && id in p.registry ==>
      && r.pool.registry == p.registry - {id} && r.pool.sources == p.sources - {id}
      && r.pool.subscriptions == Without(p.subscriptions, id)
    ensures id in p.sources && !p.sources[id].protected && id in p.registry && r.result.Ok? ==>
      r.pool.files == if p.registry[id].obj.FileBacked() then p.files - {p.registry[id].obj.filePath.value} else p.files
    ensures r.result.Err? ==>
      && id in p.sources && !p.sources[id].protected && id in p.registry
      && p.registry[id].obj.FileBacked() && p.registry[id].obj.filePath.value !in p.files
      && r == Reply(DropRows(p, id), Err(FileNotFound))
    ensures forall other :: other != id && other in p.registry ==> other in r.pool.registry && r.pool.registry[other] == p.registry[other]
    ensures Valid(p) ==> r.result.Ok? && Valid(r.pool)
  {
    if id in p.sources && !p.sources[id].protected && id in p.registry then
      var obj := p.registry[id].obj;
      var dropped := DropRows(p, id);
      match DeleteRecordData(obj, p.files)
      case Err(e) => Reply(dropped, Err(e))
      case Ok((_, fs)) => Reply(dropped.(files := fs), Ok(()))
    else Reply(p, Ok(()))
  }

  /** Deleting a protected record is a no-op. */
  lemma DeleteProtectedNoop<T>(p: Pool<T>, id: DataId)
    requires id in p.sources && p.sources[id].protected
    ensures DeleteData(p, id) == Reply(p, Ok(()))
  {
  }

  // ---------------------------------------------------------------- acknowledgment

  /** `acknowledge_data`: the first row binding the subscriber to the record is marked; when
      that completes the record's acknowledgments and the record is not protected, it is
      released. */
  function AcknowledgeData<T>(p: Pool<T>, id: DataId, who: string): (r: Reply<T, ()>)
    ensures id !in p.registry ==> r == Reply(p, Err(NotFound))
    ensures id in p.registry && !Subscribed(p.subscriptions, id, who) ==> r == Reply(p, Err(NotSubscribed))
    ensures Valid(p) && id in p.registry && Subscribed(p.subscriptions, id, who) ==> r.result.Ok?
    ensures r.result.Ok? ==> id in p.registry && Subscribed(p.subscriptions, id, who)
    ensures r.result.Ok? ==>
      var marked := p.subscriptions[FirstMatch(p.subscriptions, id, who).value := Subscription(who, id, true)];
      && (id in r.pool.registry <==> !(AllAcknowledged(marked, id) && id in p.sources && !p.sources[id].protected))
      && (id in r.pool.registry ==> r.pool == p.(subscriptions := marked))
    ensures r.result.Ok? && id !in r.pool.registry ==>
      && r.pool.registry == p.registry - {id} && r.pool.sources == p.sources - {id}
      && r.pool.subscriptions == Without(p.subscriptions, id)
      && (Valid(p) ==> r.pool.files == if p.registry[id].obj.filePath.Some? then p.files - {p.registry[id].obj.filePath.value} else p.files)
    ensures forall other :: other != id && other in p.registry ==> other in r.pool.registry && r.pool.registry[other] == p.registry[other]
    ensures id in p.sources && p.sources[id].protected ==> r.pool.registry == p.registry
    ensures Valid(p) ==> Valid(r.pool)
  {
    if id !in p.registry then Reply(p, Err(NotFound))
    else
      match FirstMatch(p.subscriptions, id, who)
      case None => Reply(p, Err(NotSubscribed))
      case Some(k) =>
        var marked := p.subscriptions[k := Subscription(who, id, true)];
        var p1 := p.(subscriptions := marked);
        if !AllAcknowledged(marked, id) then Reply(p1, Ok(()))
        else if id !in p.sources then Reply(p1, Err(NotFound))
        else if p.sources[id].protected then Reply(p1, Ok(()))
        else
          WithoutUpdate(p.subscriptions, k, Subscription(who, id, true), id);
          ReleaseData(p1, id)
  }

  // ---------------------------------------------------------------- storing

  /** The samples a payload carries, in order. */
  function PayloadSamples<T>(payload: Payload<T>): seq<T>
  {
    match payload
    case ListObj(items) => items
    case StrObj(text) => text
    case Generator(chunks) => Flatten(chunks)
  }

  /** The record-level write `store_data` dispatches to: a list goes to the object writer; a
      string goes to the object writer in RAM but, being no list, to the chunk writer in a
      file, one character per chunk; any other iterable goes to the chunk writer. Whichever
      writer runs, the record ends up holding the payload's samples; a text record refuses a
      list, and a file record without a folder is refused. */
  function Dispatch<T>(obj: Record<T>, fs: Fs<T>, payload: Payload<T>, folder: Option<Folder>): (r: Result<(Record<T>, Fs<T>)>)
    ensures obj.dataType == String && payload.ListObj? ==> r == Err(ExpectedString)
    ensures !(obj.dataType == String && payload.ListObj?) ==> (r.Ok? <==> !(obj.inFile && folder.None?))
    ensures r.Err? ==> r.error == ExpectedString || r.error == MissingFolder
    ensures r.Ok? && !(obj.dataType == String && obj.FileBacked()) ==>
      Contents(r.value.0, r.value.1) == Some(PayloadSamples(payload))
  {
    match payload
    case ListObj(items) => StoreFromObject(obj, fs, items, false, folder)
    case StrObj(text) =>
      if obj.inFile then StoreFromGenerator(obj, fs, Singletons(text), folder)
      else StoreFromObject(obj, fs, text, true, folder)
    case Generator(chunks) => StoreFromGenerator(obj, fs, chunks, folder)
  }

  /** Iterating over a string: one chunk per character. */
  function Singletons<T>(s: seq<T>): (r: seq<seq<T>>)
    ensures Flatten(r) == s && |r| == |s|
    ensures forall k :: 0 <= k < |r| ==> r[k] == [s[k]]
  {
    if s == [] then [] else [[s[0]]] + Singletons(s[1..])
  }

  /** A write keeps the record's identity and backend, and touches no file but its own. */
  lemma DispatchKeeps<T>(obj: Record<T>, fs: Fs<T>, payload: Payload<T>, folder: Option<Folder>)
    requires Dispatch(obj, fs, payload, folder).Ok?
    ensures var (obj', fs') := Dispatch(obj, fs, payload, folder).value;
      && SameIdentity(obj, obj') && obj'.inFile == obj.inFile
      && (OwnFile(obj, fs) ==> OwnFile(obj', fs'))
      && fs.Keys <= fs'.Keys
      && (forall path :: path in fs && path.id != obj.id ==> fs'[path] == fs[path])
  {
  }

  /** `store_data`: the record must exist, the caller must be its source, the record must be
      locked, a signal must carry its step and unit, and a file record needs a folder; then the
      payload is written and the record unlocked. */
  function StoreData<T>(p: Pool<T>, id: DataId, payload: Payload<T>, source: string, folder: Option<Folder>): (r: Reply<T, ()>)
    ensures r.result.Err? ==> r.pool == p
    ensures id !in p.registry ==> r.result == Err(NotFound)
    ensures id in p.registry && (id !in p.sources || p.sources[id].source != source) ==> r.result == Err(Unauthorized)
    ensures r.result.Ok? ==>
      && id in p.registry && id in p.sources && p.sources[id].source == source && p.sources[id].locked
      && !LacksDefinitions(p.registry[id].obj.params)
      && !(p.registry[id].obj.inFile && folder.None?)
    ensures r.result.Ok? ==>
      && id in r.pool.registry && r.pool.registry == p.registry[id := r.pool.registry[id]]
      && r.pool.sources == p.sources[id := p.sources[id].(locked := false)]
      && r.pool.subscriptions == p.subscriptions
      && Dispatch(p.registry[id].obj, p.files, payload, folder) == Ok((r.pool.registry[id].obj, r.pool.files))
      && r.pool.registry[id].storage == p.registry[id].storage
    ensures r.result.Ok? && Valid(p) ==>
      forall path :: path in p.files && path.id != id ==> path in r.pool.files && r.pool.files[path] == p.files[path]
    ensures Valid(p) ==> Valid(r.pool)
    ensures id in p.registry && id in p.sources && p.sources[id].source == source && !p.sources[id].locked
            ==> r == Reply(p, Err(NotLocked))
    ensures id in p.registry && id in p.sources && p.sources[id].source == source && p.sources[id].locked
            && LacksDefinitions(p.registry[id].obj.params)
            ==> r == Reply(p, Err(MissingDefinitions))
    ensures id in p.registry && id in p.sources && p.sources[id].source == source && p.sources[id].locked
            && !LacksDefinitions(p.registry[id].obj.params) && p.registry[id].obj.inFile && folder.None?
            ==> r == Reply(p, Err(MissingFolder))
    ensures id in p.registry && id in p.sources && p.sources[id].source == source && p.sources[id].locked
            && !LacksDefinitions(p.registry[id].obj.params) && !(p.registry[id].obj.inFile && folder.None?)
            ==> (r.result.Ok? <==> Dispatch(p.registry[id].obj, p.files, payload, folder).Ok?)
  {
    if id !in p.registry then Reply(p, Err(NotFound))
    else if id !in p.sources || p.sources[id].source != source then Reply(p, Err(Unauthorized))
    else if !p.sources[id].locked then Reply(p, Err(NotLocked))
    else
      var e := p.registry[id];
      if LacksDefinitions(e.obj.params) then Reply(p, Err(MissingDefinitions))
      else if e.obj.inFile && folder.None? then Reply(p, Err(MissingFolder))
      else
        match Dispatch(e.obj, p.files, payload, folder)
        case Err(err) => Reply(p, Err(err))
        case Ok((obj', fs')) =>
          DispatchKeeps(e.obj, p.files, payload, folder);
          Reply(UnlockData(p.(registry := p.registry[id := e.(obj := obj')], files := fs'), id), Ok(()))
  }

  // ---------------------------------------------------------------- reading

  /** `get_data_info`: the registry row of an unlocked record (None when only the source row
      exists). An identifier without a source row raises. */
  function GetDataInfo<T>(p: Pool<T>, id: DataId): (r: Result<Option<Entry<T>>>)
    ensures id !in p.sources ==> r == Err(NotFound)
    ensures id in p.sources && p.sources[id].locked ==> r == Err(Locked)
    ensures r.Ok? <==> id in p.sources && !p.sources[id].locked
    ensures r.Ok? && Valid(p) ==> r.value.Some? && r.value.value == p.registry[id]
  {
    if id !in p.sources then Err(NotFound)
    else if p.sources[id].locked then Err(Locked)
    else if id in p.registry then Ok(Some(p.registry[id]))
    else Ok(None)
  }

  /** The read checks `get_data` and the chunk generator share: a source row, no lock, and a
      subscriber row for the reader. */
  function ReadAccess<T>(p: Pool<T>, id: DataId, who: Option<string>): (r: Result<Entry<T>>)
    ensures r.Ok? <==> id in p.sources && !p.sources[id].locked && who.Some?
                       && Subscribed(p.subscriptions, id, who.value) && id in p.registry
    ensures r.Ok? ==> r.value == p.registry[id]
    ensures id !in p.sources ==> r == Err(NotFound)
    ensures id in p.sources && p.sources[id].locked ==> r == Err(Locked)
    ensures id in p.sources && !p.sources[id].locked && !(who.Some? && Subscribed(p.subscriptions, id, who.value))
            ==> r == Err(Unauthorized)
  {
    if id !in p.sources then Err(NotFound)
    else if p.sources[id].locked then Err(Locked)
    else if who.None? || !Subscribed(p.subscriptions, id, who.value) then Err(Unauthorized)
    else if id !in p.registry then Err(NotFound)
    else Ok(p.registry[id])
  }

  /** Returns `x` unless the acknowledgment raised. */
  function AfterAck<T, X>(ack: Reply<T, ()>, x: X): (r: Reply<T, X>)
    ensures r.pool == ack.pool
    ensures r.result.Ok? <==> ack.result.Ok?
    ensures r.result.Ok? ==> r.result.value == x
  {
    match ack.result
    case Err(e) => Reply(ack.pool, Err(e))
    case Ok(_) => Reply(ack.pool, Ok(x))
  }

  /** `get_data`: a subscriber reads the whole record, then acknowledges it. */
  function GetData<T>(p: Pool<T>, id: DataId, who: string): (r: Reply<T, Option<seq<T>>>)
    ensures ReadAccess(p, id, Some(who)).Err? ==> r == Reply(p, Err(ReadAccess(p, id, Some(who)).error))
    ensures r.result.Ok? ==> id in p.registry && ReadData(p.registry[id].obj, p.files) == Ok(r.result.value)
    ensures r.result.Ok? ==> r.pool == AcknowledgeData(p, id, who).pool
    ensures Valid(p) && ReadAccess(p, id, Some(who)).Ok? ==> r.result.Ok?
    ensures Valid(p) ==> Valid(r.pool)
  {
    match ReadAccess(p, id, Some(who))
    case Err(e) => Reply(p, Err(e))
    case Ok(e) =>
      match ReadData(e.obj, p.files)
      case Err(err) => Reply(p, Err(err))
      case Ok(data) => AfterAck(AcknowledgeData(p, id, who), data)
  }

  /** `get_chunk_generator`, consumed to the end: only signals can be read in chunks; the
      subscriber acknowledges once the last chunk has been handed out. */
  function GetChunkGenerator<T>(p: Pool<T>, id: DataId, cs: int, who: Option<string>): (r: Reply<T, seq<seq<T>>>)
    ensures ReadAccess(p, id, who).Err? ==> r == Reply(p, Err(ReadAccess(p, id, who).error))
    ensures ReadAccess(p, id, who).Ok? && !Chunkable(p.registry[id].dataType) ==> r == Reply(p, Err(NoSuchMethod))
    ensures r.result.Ok? ==> ReadChunked(p.registry[id].obj, p.files, cs) == Ok(r.result.value)
    ensures r.result.Ok? && cs > 0 ==> IsChunking(r.result.value, Contents(p.registry[id].obj, p.files).value, cs)
    ensures r.result.Ok? ==> r.pool == AcknowledgeData(p, id, who.value).pool
    ensures Valid(p) && ReadAccess(p, id, who).Ok? && Chunkable(p.registry[id].dataType)
            && ReadChunked(p.registry[id].obj, p.files, cs).Ok?
            ==> r.result.Ok?
    ensures Valid(p) ==> Valid(r.pool)
  {
    match ReadAccess(p, id, who)
    case Err(e) => Reply(p, Err(e))
    case Ok(e) =>
      if !Chunkable(e.dataType) then Reply(p, Err(NoSuchMethod))
      else
        match ReadChunked(e.obj, p.files, cs)
        case Err(err) => Reply(p, Err(err))
        case Ok(chunks) => AfterAck(AcknowledgeData(p, id, who.value), chunks)
  }

  /** `get_data_chunk`: chunk `i` of a record, straight from its file for a file record and as
      the slice [i*cs, min(i*cs + cs, n)) of its buffer otherwise. No lock, no subscriber, no
      acknowledgment. */
  function GetDataChunk<T>(p: Pool<T>, id: DataId, i: int, cs: int): (r: Result<seq<T>>)
    ensures id !in p.registry ==> r == Err(NotFound)
    ensures id in p.registry && p.registry[id].storage == File && !Chunkable(p.registry[id].dataType) ==> r == Err(NoSuchMethod)
    ensures id in p.registry && p.registry[id].storage == File && Chunkable(p.registry[id].dataType) ==>
      r == ReadSpecificChunk(p.registry[id].obj, p.files, i, cs)
    ensures id in p.registry && p.registry[id].storage == Ram ==> (r.Ok? <==> p.registry[id].obj.data.Some?)
    ensures id in p.registry && p.registry[id].storage == Ram && r.Ok? ==> |r.value| <= |p.registry[id].obj.data.value|
  {
    if id !in p.registry then Err(NotFound)
    else
      var e := p.registry[id];
      if e.storage == File then
        if !Chunkable(e.dataType) then Err(NoSuchMethod)
        else ReadSpecificChunk(e.obj, p.files, i, cs)
      else if e.obj.data.None? then Err(NoneValue)
      else
        var data := e.obj.data.value;
        var start := i * cs;
        Ok(PySlice(data, start, Min(start + cs, |data|)))
  }

  /** On a RAM record the chunk accessor agrees with the chunk generator: chunk `i` is the
      i-th chunk yielded, and empty past the last. */
  lemma RamChunkMatchesGenerator<T>(p: Pool<T>, id: DataId, i: nat, cs: nat)
    requires id in p.registry && p.registry[id].storage == Ram && p.registry[id].obj.data.Some?
    requires cs > 0
    ensures var chunks := Split(p.registry[id].obj.data.value, cs);
      GetDataChunk(p, id, i, cs) == Ok(if i < |chunks| then chunks[i] else [])
  {
    SliceIsChunk(p.registry[id].obj.data.value, i, cs);
  }

  /** On a file record whose size was recorded by the write, the chunk accessor agrees with
      the chunk generator too. */
  lemma FileChunkMatchesGenerator<T>(p: Pool<T>, id: DataId, i: nat, cs: nat)
    requires Valid(p)
    requires id in p.registry && p.registry[id].storage == File && Chunkable(p.registry[id].dataType)
    requires p.registry[id].obj.filePath.Some?
    requires p.registry[id].obj.sizeInBytes == Some(|p.files[p.registry[id].obj.filePath.value]| * p.registry[id].obj.Width())
    requires cs > 0
    ensures var chunks := ReadChunked(p.registry[id].obj, p.files, cs).value;
      GetDataChunk(p, id, i, cs) == Ok(if i < |chunks| then chunks[i] else [])
  {
    SpecificChunkMatchesSequential(p.registry[id].obj, p.files, i, cs);
  }

  /** `get_overlapped_chunk_generator`, consumed to the end. It checks the lock but not the
      subscriber: an unknown subscriber is only refused by the acknowledgment after the last
      chunk, and without a subscriber nothing is acknowledged. */
  function GetOverlappedChunkGenerator<T>(p: Pool<T>, id: DataId, cs: int, overlap: int, who: Option<string>)
    : (r: Reply<T, seq<seq<T>>>)
    ensures id !in p.sources ==> r == Reply(p, Err(NotFound))
    ensures id in p.sources && p.sources[id].locked ==> r == Reply(p, Err(Locked))
    ensures r.result.Ok? ==> id in p.registry && ReadChunked(p.registry[id].obj, p.files, cs) == Ok(r.result.value)
    ensures r.result.Ok? && who.None? ==> r.pool == p
    ensures r.result.Ok? && who.Some? ==> Subscribed(p.subscriptions, id, who.value) && r.pool == AcknowledgeData(p, id, who.value).pool
    ensures (id in p.sources && !p.sources[id].locked && id in p.registry && Chunkable(p.registry[id].dataType)
             && ReadOverlapped(p.registry[id].obj, p.files, cs, overlap).Ok? && who.Some?
             && !Subscribed(p.subscriptions, id, who.value)) ==> r == Reply(p, Err(NotSubscribed))
    ensures (id in p.sources && !p.sources[id].locked && id in p.registry && Chunkable(p.registry[id].dataType)
             && ReadChunked(p.registry[id].obj, p.files, cs).Ok? && who.None?)
            ==> r == Reply(p, Ok(ReadChunked(p.registry[id].obj, p.files, cs).value))
    ensures (Valid(p) && id in p.sources && !p.sources[id].locked && Chunkable(p.registry[id].dataType)
             && ReadChunked(p.registry[id].obj, p.files, cs).Ok?
             && (who.None? || Subscribed(p.subscriptions, id, who.value))) ==> r.result.Ok?
    ensures Valid(p) ==> Valid(r.pool)
  {
    if id !in p.sources then Reply(p, Err(NotFound))
    else if p.sources[id].locked then Reply(p, Err(Locked))
    else if id !in p.registry then Reply(p, Err(NotFound))
    else
      var e := p.registry[id];
      if !Chunkable(e.dataType) then Reply(p, Err(NoSuchMethod))
      else
        match ReadOverlapped(e.obj, p.files, cs, overlap)
        case Err(err) => Reply(p, Err(err))
        case Ok(chunks) =>
          if who.None? then Reply(p, Ok(chunks))
          else AfterAck(AcknowledgeData(p, id, who.value), chunks)
  }

  // ---------------------------------------------------------------- migration

  /** `convert_data_to_ram`: lock, move a file record's samples into RAM and remove the file,
      then unlock. A RAM record is only locked and unlocked. A failure leaves the record locked. */
  function ConvertDataToRam<T>(p: Pool<T>, id: DataId): (r: Reply<T, ()>)
    ensures id !in p.registry ==> r == Reply(LockData(p, id), Err(NotFound))
    ensures r.result.Err? ==> r.pool == LockData(p, id)
    ensures r.result.Ok? ==> id in p.registry
    ensures r.result.Ok? ==> r.pool.sources == UnlockData(p, id).sources
    ensures r.result.Ok? ==> id in r.pool.registry && !r.pool.registry[id].obj.FileBacked()
    ensures r.result.Ok? && p.registry[id].obj.FileBacked() ==> !r.pool.registry[id].obj.inFile && r.pool.registry[id].storage == Ram
    ensures r.result.Ok? && p.registry[id].obj.FileBacked() ==> r.pool.files == p.files - {p.registry[id].obj.filePath.value}
    ensures r.result.Ok? && !p.registry[id].obj.FileBacked() ==> r.pool == UnlockData(p, id)
    ensures r.result.Ok? ==>
      r.pool.registry == p.registry[id := r.pool.registry[id]] && r.pool.subscriptions == p.subscriptions
    ensures r.result.Ok? ==> Contents(r.pool.registry[id].obj, r.pool.files) == Contents(p.registry[id].obj, p.files)
    ensures Valid(p) && id in p.registry && Chunkable(p.registry[id].dataType) ==> r.result.Ok?
    ensures Valid(p) ==> Valid(r.pool)
  {
    var p1 := LockData(p, id);
    if id !in p.registry then Reply(p1, Err(NotFound))
    else
      var e := p.registry[id];
      if e.obj.FileBacked() then
        if !Chunkable(e.dataType) then Reply(p1, Err(NoSuchMethod))
        else
          match ConvertFileToRam(e.obj, p.files)
          case Err(err) => Reply(p1, Err(err))
          case Ok((obj', fs')) =>
            Reply(UnlockData(p1.(registry := p.registry[id := e.(obj := obj', storage := Ram)], files := fs'), id), Ok(()))
      else Reply(UnlockData(p1, id), Ok(()))
  }

  /** `convert_data_to_file`: lock, write a RAM record to `<folder>/<id>.dat` and drop its
      buffer, then unlock. A file record is only locked and unlocked. A failure, a missing
      folder included, leaves the record locked. */
  function ConvertDataToFile<T>(p: Pool<T>, id: DataId, folder: Option<Folder>): (r: Reply<T, ()>)
    ensures id !in p.registry ==> r == Reply(LockData(p, id), Err(NotFound))
    ensures id in p.registry && !p.registry[id].obj.inFile && folder.None? ==> r == Reply(LockData(p, id), Err(MissingFolder))
    ensures r.result.Err? ==> r.pool == LockData(p, id)
    ensures r.result.Ok? ==> id in p.registry
    ensures r.result.Ok? ==> r.pool.sources == UnlockData(p, id).sources
    ensures r.result.Ok? ==> id in r.pool.registry && r.pool.registry[id].obj.inFile
    ensures Valid(p) && r.result.Ok? ==> r.pool.registry[id].storage == File
    ensures r.result.Ok? && p.registry[id].obj.inFile ==> r.pool == UnlockData(p, id)
    ensures Valid(p) && r.result.Ok? && !p.registry[id].obj.inFile ==>
      && folder.Some? && p.registry[id].obj.data.Some?
      && r.pool.files == p.files[FilePath(folder.value, id) := p.registry[id].obj.data.value]
      && r.pool.registry[id].obj.data.None?
    ensures r.result.Ok? ==>
      r.pool.registry == p.registry[id := r.pool.registry[id]] && r.pool.subscriptions == p.subscriptions
    ensures r.result.Ok? ==> Contents(r.pool.registry[id].obj, r.pool.files) == Contents(p.registry[id].obj, p.files)
    ensures Valid(p) ==> Valid(r.pool)
  {
    var p1 := LockData(p, id);
    if id !in p.registry then Reply(p1, Err(NotFound))
    else
      var e := p.registry[id];
      if !e.obj.inFile then
        if folder.None? then Reply(p1, Err(MissingFolder))
        else if !Chunkable(e.dataType) then Reply(p1, Err(NoSuchMethod))
        else
          match ConvertRamToFile(e.obj, p.files, folder)
          case Err(err) => Reply(p1, Err(err))
          case Ok((obj', fs')) =>
            Reply(UnlockData(p1.(registry := p.registry[id := e.(obj := obj', storage := File)], files := fs'), id), Ok(()))
      else Reply(UnlockData(p1, id), Ok(()))
  }

  /** Moving a RAM signal to a file and back leaves the pool's view of it unchanged: the same
      samples, a RAM backend, an unlocked row, and its file gone again. */
  lemma MigrationKeepsContents<T>(p: Pool<T>, id: DataId, folder: Folder)
    requires Valid(p) && id in p.registry && Chunkable(p.registry[id].dataType)
    requires !p.registry[id].obj.inFile && p.registry[id].obj.data.Some?
    ensures ConvertDataToFile(p, id, Some(folder)).result.Ok?
    ensures var q := ConvertDataToFile(p, id, Some(folder)).pool;
      var r := ConvertDataToRam(q, id);
      && r.result.Ok?
      && Contents(r.pool.registry[id].obj, r.pool.files) == p.registry[id].obj.data
      && r.pool.registry[id].storage == Ram && !r.pool.registry[id].obj.inFile
      && r.pool.sources == UnlockData(p, id).sources
      && r.pool.files == p.files - {FilePath(folder, id)}
  {
    var path := FilePath(folder, id);
    ToFileStep(p, id, folder);
    var q := ConvertDataToFile(p, id, Some(folder)).pool;
    ToRamStep(q, id);
    UpdateThenRemove(p.files, path, p.registry[id].obj.data.value);
    UnlockAgain(p, q, id);
  }

  /** Writing a file and removing it again leaves the other files as they were. */
  lemma UpdateThenRemove<T>(fs: Fs<T>, path: FilePath, xs: seq<T>)
    ensures fs[path := xs] - {path} == fs - {path}
  {
  }

  /** Unlocking an unlocked row changes nothing. */
  lemma UnlockAgain<T>(p: Pool<T>, q: Pool<T>, id: DataId)
    requires q.sources == UnlockData(p, id).sources
    ensures UnlockData(q, id).sources == q.sources
  {
    if id in q.sources {
      assert q.sources[id := q.sources[id].(locked := false)] == q.sources;
    }
  }

  /** The second half of the migration: a file signal loaded back into RAM. */
  lemma ToRamStep<T>(q: Pool<T>, id: DataId)
    requires Valid(q) && id in q.registry && Chunkable(q.registry[id].dataType)
    requires q.registry[id].obj.FileBacked()
    ensures var r := ConvertDataToRam(q, id);
      && r.result.Ok? && id in r.pool.registry
      && Contents(r.pool.registry[id].obj, r.pool.files) == Contents(q.registry[id].obj, q.files)
      && r.pool.registry[id].storage == Ram && !r.pool.registry[id].obj.inFile
      && r.pool.sources == UnlockData(q, id).sources
      && r.pool.files == q.files - {q.registry[id].obj.filePath.value}
  {
  }

  /** The first half of the migration: a RAM signal written to its file. */
  lemma ToFileStep<T>(p: Pool<T>, id: DataId, folder: Folder)
    requires Valid(p) && id in p.registry && Chunkable(p.registry[id].dataType)
    requires !p.registry[id].obj.inFile && p.registry[id].obj.data.Some?
    ensures var r := ConvertDataToFile(p, id, Some(folder));
      && r.result.Ok? && Valid(r.pool) && id in r.pool.registry
      && Chunkable(r.pool.registry[id].dataType)
      && r.pool.registry[id].obj.FileBacked() && r.pool.registry[id].obj.filePath == Some(FilePath(folder, id))
      && r.pool.files == p.files[FilePath(folder, id) := p.registry[id].obj.data.value]
      && Contents(r.pool.registry[id].obj, r.pool.files) == p.registry[id].obj.data
      && r.pool.sources == UnlockData(p, id).sources
  {
  }
}
