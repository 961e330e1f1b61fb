/** The life of one record through the pool: registered locked by its source, written once,
    unlocked, read by its subscribers, and released when the last of them has acknowledged
    it, unless it is protected. */
module Lifecycle {
  import opened Wrappers
  import opened Samples
  import opened Kinds
  import opened Chunks
  import opened Records
  import opened DataPool

  /** Keyword arguments of a temporal signal with a step and a unit. */
  function SignalArgs(): (kw: Kwargs)
    ensures Instantiate(TemporalSignal, kw).Ok?
    ensures !LacksDefinitions(Instantiate(TemporalSignal, kw).value)
  {
    var kw := map["time_step" := Number(0.01), "unit" := Word("V")];
    assert kw.Keys == {"time_step", "unit"};
    kw
  }

  /** A freshly registered record is locked: nobody can read it before its source has written it. */
  lemma RegisteredIsLocked<T>(p: Pool<T>, id: DataId, dt: DataType, name: string, source: string,
                              protected: bool, inFile: bool, kw: Kwargs, who: string)
    requires id !in p.registry && id !in p.sources
    requires RegisterData(p, id, dt, name, source, protected, inFile, kw).result.Ok?
    ensures var q := RegisterData(p, id, dt, name, source, protected, inFile, kw).pool;
      && GetDataInfo(q, id) == Err(Locked)
      && GetData(q, id, who).result == Err(Locked)
  {
  }

  /** Only the registering source can write, and only while the record is locked. */
  lemma OnlyOwnerWrites<T>(p: Pool<T>, id: DataId, payload: Payload<T>, source: string, other: string, folder: Option<Folder>)
    requires id in p.registry && id in p.sources && p.sources[id].source == source && other != source
    ensures StoreData(p, id, payload, other, folder) == Reply(p, Err(Unauthorized))
    ensures !p.sources[id].locked ==> StoreData(p, id, payload, source, folder) == Reply(p, Err(NotLocked))
  {
  }

  /** A second write is refused: the first write unlocks the record. */
  lemma WriteOnce<T>(p: Pool<T>, id: DataId, a: Payload<T>, b: Payload<T>, source: string, folder: Option<Folder>)
    requires StoreData(p, id, a, source, folder).result.Ok?
    ensures var q := StoreData(p, id, a, source, folder).pool;
      StoreData(q, id, b, source, folder) == Reply(q, Err(NotLocked))
  {
  }

  /** The round trip of the pool on a RAM signal with one subscriber: what the source stores
      is what the subscriber reads, and the read releases the record. */
  lemma {:induction false} RamRoundTrip<T>(p: Pool<T>, id: DataId, xs: seq<T>)
    requires Valid(p) && id !in p.registry && id !in p.sources
    requires forall k :: 0 <= k < |p.subscriptions| ==> p.subscriptions[k].dataId != id
    ensures var kw := SignalArgs();
      var p1 := RegisterData(p, id, TemporalSignal, "TempSignal_1", "source_1", false, false, kw).pool;
      var p2 := StoreData(p1, id, ListObj(xs), "source_1", None);
      var p3 := AddSubscriber(p2.pool, id, "subscriber_1");
      var r := GetData(p3, id, "subscriber_1");
      && p2.result.Ok?
      && r.result == Ok(Some(xs))
      && id !in r.pool.registry
      && Valid(r.pool)
  {
    var kw := SignalArgs();
    var p1 := RegisterData(p, id, TemporalSignal, "TempSignal_1", "source_1", false, false, kw).pool;
    var p2 := StoreData(p1, id, ListObj(xs), "source_1", None);
    StoreStep(p1, id, "source_1", xs, None);
    var p3 := AddSubscriber(p2.pool, id, "subscriber_1");
    SubscribeAfterStore(p2.pool, p3, id, "subscriber_1");
    ReadStep(p3, id, "subscriber_1", xs);
  }

  /** The same round trip through a file, subscribing before the write: the samples come back
      from the file, and releasing the record removes the file. */
  lemma {:induction false} FileRoundTrip<T>(p: Pool<T>, id: DataId, xs: seq<T>, folder: Folder)
    requires Valid(p) && id !in p.registry && id !in p.sources
    requires forall k :: 0 <= k < |p.subscriptions| ==> p.subscriptions[k].dataId != id
    ensures var kw := SignalArgs();
      var p1 := RegisterData(p, id, TemporalSignal, "TempSignal_File", "source_1", false, true, kw).pool;
      var p2 := AddSubscriber(p1, id, "subscriber_1");
      var p3 := StoreData(p2, id, ListObj(xs), "source_1", Some(folder));
      var r := GetData(p3.pool, id, "subscriber_1");
      && p3.result.Ok?
      && p3.pool.files == p.files[FilePath(folder, id) := xs]
      && r.result == Ok(Some(xs))
      && id !in r.pool.registry
      && FilePath(folder, id) !in r.pool.files
      && Valid(r.pool)
  {
    var kw := SignalArgs();
    var p1 := RegisterData(p, id, TemporalSignal, "TempSignal_File", "source_1", false, true, kw).pool;
    var p2 := StoreData(p1, id, ListObj(xs), "source_1", Some(folder));
    StoreStep(p1, id, "source_1", xs, Some(folder));
    SubscribeStoreCommute(p1, id, "subscriber_1", ListObj(xs), "source_1", Some(folder));
    var p3 := AddSubscriber(p2.pool, id, "subscriber_1");
    SubscribeAfterStore(p2.pool, p3, id, "subscriber_1");
    ReadStep(p3, id, "subscriber_1", xs);
  }

  /** The chunked read of a file signal, subscribed before the write, yields the chunks
      `range(0, n, cs)` cuts, then releases. */
  lemma {:induction false} FileChunkedRead<T>(p: Pool<T>, id: DataId, xs: seq<T>, folder: Folder, cs: nat)
    requires Valid(p) && id !in p.registry && id !in p.sources
    requires forall k :: 0 <= k < |p.subscriptions| ==> p.subscriptions[k].dataId != id
    requires cs > 0
    ensures var kw := SignalArgs();
      var p1 := RegisterData(p, id, TemporalSignal, "TempSignal_Chunk_File", "source_1", false, true, kw).pool;
      var p2 := AddSubscriber(p1, id, "subscriber_1");
      var p3 := StoreData(p2, id, ListObj(xs), "source_1", Some(folder)).pool;
      var r := GetChunkGenerator(p3, id, cs, Some("subscriber_1"));
      && r.result == Ok(Split(xs, cs))
      && id !in r.pool.registry
  {
    var kw := SignalArgs();
    var p1 := RegisterData(p, id, TemporalSignal, "TempSignal_Chunk_File", "source_1", false, true, kw).pool;
    var p2 := StoreData(p1, id, ListObj(xs), "source_1", Some(folder));
    StoreStep(p1, id, "source_1", xs, Some(folder));
    SubscribeStoreCommute(p1, id, "subscriber_1", ListObj(xs), "source_1", Some(folder));
    var p3 := AddSubscriber(p2.pool, id, "subscriber_1");
    SubscribeAfterStore(p2.pool, p3, id, "subscriber_1");
    ChunkStep(p3, id, "subscriber_1", xs, cs);
  }

  /** The reader is the record's last subscriber still to acknowledge, on an unlocked and
      unprotected record. */
  predicate SoleReader<T>(p: Pool<T>, id: DataId, who: string)
  {
    && Valid(p) && id in p.registry && id in p.sources
    && !p.sources[id].locked && !p.sources[id].protected
    && |p.subscriptions| > 0 && p.subscriptions[|p.subscriptions| - 1] == Subscription(who, id, false)
    && forall k :: 0 <= k < |p.subscriptions| - 1 && p.subscriptions[k].dataId == id ==>
         p.subscriptions[k].acknowledged && p.subscriptions[k].subscriber != who
  }

  /** Subscribing and storing commute: the write neither reads nor changes the subscriber
      rows, and a subscription touches nothing but them, so subscribing before the write (as
      the file tests do) ends where subscribing after it does. */
  lemma SubscribeStoreCommute<T>(p: Pool<T>, id: DataId, who: string, payload: Payload<T>, source: string, folder: Option<Folder>)
    ensures var t := StoreData(p, id, payload, source, folder);
      StoreData(AddSubscriber(p, id, who), id, payload, source, folder) == Reply(AddSubscriber(t.pool, id, who), t.result)
  {
  }

  /** Subscribing to a record just written, that nobody followed before, makes the new
      subscriber its sole reader. */
  lemma SubscribeAfterStore<T>(p: Pool<T>, q: Pool<T>, id: DataId, who: string)
    requires Valid(p) && id in p.registry && id in p.sources
    requires !p.sources[id].locked && !p.sources[id].protected
    requires forall k :: 0 <= k < |p.subscriptions| ==> p.subscriptions[k].dataId != id
    requires q == AddSubscriber(p, id, who)
    ensures SoleReader(q, id, who)
    ensures q.registry == p.registry && q.files == p.files
  {
    assert q.subscriptions == p.subscriptions + [Subscription(who, id, false)];
  }

  /** A sole reader's `get_data` returns what the record holds and releases it. */
  lemma ReadStep<T>(p: Pool<T>, id: DataId, who: string, xs: seq<T>)
    requires SoleReader(p, id, who)
    requires p.registry[id].obj.Sample() != Str && Contents(p.registry[id].obj, p.files) == Some(xs)
    ensures GetData(p, id, who).result == Ok(Some(xs))
    ensures id !in GetData(p, id, who).pool.registry
    ensures Valid(GetData(p, id, who).pool)
    ensures p.registry[id].obj.FileBacked() ==> p.registry[id].obj.filePath.value !in GetData(p, id, who).pool.files
  {
    AckSoleSubscriber(p, id, who);
  }

  /** A sole reader's chunked read of a signal returns the chunking of what the record holds and
      releases it. */
  lemma ChunkStep<T>(p: Pool<T>, id: DataId, who: string, xs: seq<T>, cs: nat)
    requires SoleReader(p, id, who) && cs > 0
    requires Chunkable(p.registry[id].dataType) && Contents(p.registry[id].obj, p.files) == Some(xs)
    ensures GetChunkGenerator(p, id, cs, Some(who)).result == Ok(Split(xs, cs))
    ensures id !in GetChunkGenerator(p, id, cs, Some(who)).pool.registry
  {
    AckSoleSubscriber(p, id, who);
    var r := GetChunkGenerator(p, id, cs, Some(who));
    ChunkingUnique(r.result.value, xs, cs);
  }

  /** The owner writing a list into a locked signal: the write succeeds, unlocks the record,
      and the record then holds the list, in RAM (a folder, if given, is ignored) or in
      `<folder>/<id>.dat`. */
  lemma StoreStep<T>(p: Pool<T>, id: DataId, source: string, xs: seq<T>, folder: Option<Folder>)
    requires Valid(p) && id in p.registry && id in p.sources
    requires p.sources[id].locked && p.sources[id].source == source
    requires !LacksDefinitions(p.registry[id].obj.params)
    requires Chunkable(p.registry[id].obj.dataType)
    requires p.registry[id].obj.inFile ==> folder.Some?
    ensures var r := StoreData(p, id, ListObj(xs), source, folder);
      && r.result.Ok? && Valid(r.pool)
      && r.pool.registry.Keys == p.registry.Keys && !r.pool.sources[id].locked
      && r.pool.sources[id].protected == p.sources[id].protected
      && r.pool.subscriptions == p.subscriptions
      && Contents(r.pool.registry[id].obj, r.pool.files) == Some(xs)
      && r.pool.registry[id].obj.dataType == p.registry[id].obj.dataType
      && (p.registry[id].obj.inFile ==>
            r.pool.files == p.files[FilePath(folder.value, id) := xs]
            && r.pool.registry[id].obj.filePath == Some(FilePath(folder.value, id)))
      && (!p.registry[id].obj.inFile ==> r.pool.files == p.files)
  {
  }

  /** When the reader's row is the last one for the record and every other subscriber has
      already acknowledged, the acknowledgment completes the set and an unprotected record is
      released. */
  lemma AckSoleSubscriber<T>(p: Pool<T>, id: DataId, who: string)
    requires Valid(p) && id in p.registry && !p.sources[id].protected
    requires |p.subscriptions| > 0 && p.subscriptions[|p.subscriptions| - 1] == Subscription(who, id, false)
    requires forall k :: 0 <= k < |p.subscriptions| - 1 && p.subscriptions[k].dataId == id ==>
      p.subscriptions[k].acknowledged && p.subscriptions[k].subscriber != who
    ensures AcknowledgeData(p, id, who).pool.files ==
      if p.registry[id].obj.FileBacked() then p.files - {p.registry[id].obj.filePath.value} else p.files
    ensures AcknowledgeData(p, id, who).result.Ok?
    ensures id !in AcknowledgeData(p, id, who).pool.registry
  {
    var n := |p.subscriptions| - 1;
    assert Subscribed(p.subscriptions, id, who);
    assert FirstMatch(p.subscriptions, id, who) == Some(n);
    var marked := p.subscriptions[n := Subscription(who, id, true)];
    assert AllAcknowledged(marked, id);
  }

  /** With two subscribers, the first acknowledgment keeps the record and the second releases it. */
  lemma TwoSubscribers<T>(p: Pool<T>, id: DataId, a: string, b: string)
    requires Valid(p) && id in p.registry && !p.sources[id].protected
    requires forall k :: 0 <= k < |p.subscriptions| ==> p.subscriptions[k].dataId != id
    requires a != b
    ensures var q := AddSubscriber(AddSubscriber(p, id, a), id, b);
      var r1 := AcknowledgeData(q, id, a);
      var r2 := AcknowledgeData(r1.pool, id, b);
      && r1.result.Ok? && id in r1.pool.registry
      && r2.result.Ok? && id !in r2.pool.registry
  {
    FirstAckKeeps(p, id, a, b);
    var q := AddSubscriber(AddSubscriber(p, id, a), id, b);
    var r1 := AcknowledgeData(q, id, a).pool;
    var subs, n := r1.subscriptions, |p.subscriptions|;
    assert |subs| == n + 2 && subs[n + 1] == Subscription(b, id, false);
    forall k | 0 <= k < n + 1
      ensures subs[k].dataId == id ==> subs[k].acknowledged && subs[k].subscriber != b
    {
      assert subs[k] == if k < n then p.subscriptions[k] else Subscription(a, id, true);
    }
    AckSoleSubscriber(r1, id, b);
  }

  /** The first of two acknowledgments marks the first subscriber's row and keeps the record,
      leaving the second subscriber as its sole reader. */
  lemma FirstAckKeeps<T>(p: Pool<T>, id: DataId, a: string, b: string)
    requires Valid(p) && id in p.registry && !p.sources[id].protected
    requires forall k :: 0 <= k < |p.subscriptions| ==> p.subscriptions[k].dataId != id
    requires a != b
    ensures var q := AddSubscriber(AddSubscriber(p, id, a), id, b);
      var r1 := AcknowledgeData(q, id, a);
      && r1.result.Ok? && id in r1.pool.registry
      && r1.pool.subscriptions == p.subscriptions + [Subscription(a, id, true)] + [Subscription(b, id, false)]
      && Valid(r1.pool) && r1.pool.sources == p.sources
  {
    var q := AddSubscriber(AddSubscriber(p, id, a), id, b);
    var n := |p.subscriptions|;
    FirstOfTwo(p, q, id, a, b);
    ReplaceMiddle(p.subscriptions, Subscription(a, id, false), Subscription(a, id, true), Subscription(b, id, false));
    var marked := q.subscriptions[n := Subscription(a, id, true)];
    assert marked[n + 1] == Subscription(b, id, false);
  }

  /** Overwriting the row after a prefix. */
  lemma ReplaceMiddle<X>(pre: seq<X>, x: X, x': X, y: X)
    ensures (pre + [x] + [y])[|pre| := x'] == pre + [x'] + [y]
  {
  }

  /** After two subscriptions to a record nobody followed before, the first is the first match. */
  lemma FirstOfTwo<T>(p: Pool<T>, q: Pool<T>, id: DataId, a: string, b: string)
    requires forall k :: 0 <= k < |p.subscriptions| ==> p.subscriptions[k].dataId != id
    requires q == AddSubscriber(AddSubscriber(p, id, a), id, b)
    ensures q.subscriptions == p.subscriptions + [Subscription(a, id, false)] + [Subscription(b, id, false)]
    ensures FirstMatch(q.subscriptions, id, a) == Some(|p.subscriptions|)
  {
    AppendsRow(p, id, a);
    AppendsRow(AddSubscriber(p, id, a), id, b);
    FirstMatchAfter(p.subscriptions, Subscription(a, id, false), [Subscription(b, id, false)]);
  }

  /** A subscription is one row appended to the list. */
  lemma AppendsRow<T>(p: Pool<T>, id: DataId, who: string)
    ensures AddSubscriber(p, id, who).subscriptions == p.subscriptions + [Subscription(who, id, false)]
  {
    var r := AddSubscriber(p, id, who);
    assert r.subscriptions[..|p.subscriptions|] == p.subscriptions;
  }

  /** Rows of other records before it do not move the first match of a row. */
  lemma {:induction false} FirstMatchAfter(pre: seq<Subscription>, x: Subscription, post: seq<Subscription>)
    requires forall k :: 0 <= k < |pre| ==> pre[k].dataId != x.dataId
    ensures FirstMatch(pre + [x] + post, x.dataId, x.subscriber) == Some(|pre|)
  {
    var subs := pre + [x] + post;
    if pre == [] {
      assert subs[0] == x;
    } else {
      assert subs[0] == pre[0];
      assert subs[1..] == pre[1..] + [x] + post;
      FirstMatchAfter(pre[1..], x, post);
    }
  }

  /** A protected record survives every acknowledgment and every delete. */
  lemma ProtectedSurvives<T>(p: Pool<T>, id: DataId, who: string)
    requires id in p.sources && p.sources[id].protected
    ensures AcknowledgeData(p, id, who).pool.registry == p.registry
    ensures DeleteData(p, id) == Reply(p, Ok(()))
  {
  }
}
