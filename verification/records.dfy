/** A typed storage record: its elements live either in RAM or in one file of fixed-width
    samples, and it can be written whole or from chunks, read whole, sequentially, or by
    chunk index, and moved between the two backends. */
module Records {
  import opened Wrappers
  import opened Arith
  import opened Samples
  import opened Kinds
  import opened Chunks

  type DataId = string
  type Folder = string

  /** The path `<folder>/<data id>.dat` a record's file is written to. */
  datatype FilePath = FilePath(folder: Folder, id: DataId)

  /** The files on disk: each is a flat concatenation of samples, no header. */
  type Fs<T> = map<FilePath, seq<T>>

  /** One record. `data` is the RAM buffer (Python's None when absent); `filePath` is set once a
      file has been written; `sizeInBytes` starts as None and `numSamples` at the count the
      constructor was given. */
  datatype Record<T> = Record(
    id: DataId,
    dataType: DataType,
    params: KindParams,
    name: string,
    inFile: bool,
    data: Option<seq<T>>,
    filePath: Option<FilePath>,
    sizeInBytes: Option<int>,
    numSamples: int)
  {
    function Sample(): SampleType
    {
      SampleTypeOf(dataType)
    }

    function Width(): nat
    {
      Samples.Width(SampleTypeOf(dataType))
    }

    /** True when reads go to the file rather than the buffer. */
    predicate FileBacked()
    {
      inFile && filePath.Some?
    }
  }

  /** A record as the pool constructs it: no file, zero elements, no size yet. */
  function NewRecord<T>(id: DataId, dt: DataType, params: KindParams, name: string, inFile: bool): (r: Record<T>)
    ensures r.id == id && r.dataType == dt && r.inFile == inFile
    ensures r.filePath.None? && r.sizeInBytes.None? && r.numSamples == 0
    ensures r.data == if StartsEmptyList(dt) then Some([]) else None
  {
    Record(id, dt, params, name, inFile, if StartsEmptyList(dt) then Some([]) else None, None, None, 0)
  }

  /** The element sequence a record holds, wherever it lives; None when a read has nothing to read. */
  function Contents<T>(r: Record<T>, fs: Fs<T>): Option<seq<T>>
  {
    if r.FileBacked() then
      if r.filePath.value in fs then Some(fs[r.filePath.value]) else None
    else r.data
  }

  /** The fields storing and conversion never touch. */
  predicate SameIdentity<T>(r: Record<T>, r': Record<T>)
  {
    r'.id == r.id && r'.dataType == r.dataType && r'.params == r.params && r'.name == r.name
  }

  // ---------------------------------------------------------------- storing

  /** Storing from a chunk generator, as corrected: the running total counts every chunk,
      text included. RAM records get the concatenation; file records get a file holding it. */
  function StoreFromGenerator<T>(r: Record<T>, fs: Fs<T>, chunks: seq<seq<T>>, folder: Option<Folder>)
    : (res: Result<(Record<T>, Fs<T>)>)
    ensures res.Ok? <==> !(r.inFile && folder.None?)
    ensures !res.Ok? ==> res == Err(MissingFolder)
    ensures res.Ok? ==> SameIdentity(r, res.value.0) && res.value.0.inFile == r.inFile
    ensures res.Ok? ==> res.value.0.numSamples == TotalLength(chunks)
    ensures res.Ok? ==> res.value.0.sizeInBytes == Some(TotalLength(chunks) * r.Width())
    ensures res.Ok? ==> Contents(res.value.0, res.value.1) == Some(Flatten(chunks))
    ensures res.Ok? && !r.inFile ==> res.value.1 == fs
    ensures res.Ok? && r.inFile ==>
      && res.value.0.filePath == Some(FilePath(folder.value, r.id))
      && res.value.0.data == r.data
      && res.value.1.Keys == fs.Keys + {FilePath(folder.value, r.id)}
      && forall p :: p in fs && p != FilePath(folder.value, r.id) ==> res.value.1[p] == fs[p]
  {
    var items := Flatten(chunks);
    FlattenLength(chunks);
    if r.inFile then
      if folder.None? then Err(MissingFolder)
      else
        var path := FilePath(folder.value, r.id);
        Ok((r.(filePath := Some(path), sizeInBytes := Some(|items| * r.Width()), numSamples := |items|),
            fs[path := items]))
    else
      Ok((r.(data := Some(items), sizeInBytes := Some(|items| * r.Width()), numSamples := |items|), fs))
  }

  /** Storing from a chunk generator as written: in file mode, text chunks are written but the
      running total is only advanced for numeric chunks, so a text file records zero samples. */
  function StoreFromGeneratorAsWritten<T>(r: Record<T>, fs: Fs<T>, chunks: seq<seq<T>>, folder: Option<Folder>)
    : (res: Result<(Record<T>, Fs<T>)>)
    ensures res.Ok? <==> !(r.inFile && folder.None?)
    ensures res.Ok? && !(r.inFile && r.Sample() == Str) ==> res == StoreFromGenerator(r, fs, chunks, folder)
    ensures res.Ok? && r.inFile && r.Sample() == Str ==>
      res.value.0.numSamples == 0 && res.value.0.sizeInBytes == Some(0)
      && Contents(res.value.0, res.value.1) == Some(Flatten(chunks))
  {
    var items := Flatten(chunks);
    if r.inFile then
      if folder.None? then Err(MissingFolder)
      else
        var path := FilePath(folder.value, r.id);
        var total := if r.Sample() == Str then 0 else |items|;
        Ok((r.(filePath := Some(path), sizeInBytes := Some(total * r.Width()), numSamples := total),
            fs[path := items]))
    else
      Ok((r.(data := Some(items), sizeInBytes := Some(|items| * r.Width()), numSamples := |items|), fs))
  }

  /** The as-written generator store loses the count of a text file: one chunk "AB" gives a
      file of two samples recorded as zero samples and zero bytes. */
  lemma StoreTextCountLost(r: Record<char>, fs: Fs<char>, folder: Folder)
    requires r.inFile && r.Sample() == Str
    ensures StoreFromGeneratorAsWritten(r, fs, [['A', 'B']], Some(folder)).value.0.numSamples == 0
    ensures StoreFromGenerator(r, fs, [['A', 'B']], Some(folder)).value.0.numSamples == 2
    ensures Contents(StoreFromGeneratorAsWritten(r, fs, [['A', 'B']], Some(folder)).value.0,
                     StoreFromGeneratorAsWritten(r, fs, [['A', 'B']], Some(folder)).value.1) == Some(['A', 'B'])
  {
    assert Flatten([['A', 'B']]) == ['A', 'B'] by {
      assert Flatten<char>([['A', 'B']][1..]) == [];
    }
  }

  /** Storing from a whole object. A text record (`StrData`) keeps the string as its data
      whatever the backend and refuses anything but a string; file-backed text writes the
      joined text but leaves the sample count alone. */
  function StoreFromObject<T>(r: Record<T>, fs: Fs<T>, items: seq<T>, isStr: bool, folder: Option<Folder>)
    : (res: Result<(Record<T>, Fs<T>)>)
    ensures r.dataType == String ==> (res.Ok? <==> isStr)
    ensures r.dataType != String ==> (res.Ok? <==> !(r.inFile && folder.None?))
    ensures !res.Ok? ==> res == Err(if r.dataType == String then ExpectedString else MissingFolder)
    ensures res.Ok? ==> SameIdentity(r, res.value.0) && res.value.0.inFile == r.inFile
    ensures res.Ok? && !(r.dataType == String && r.FileBacked()) ==> Contents(res.value.0, res.value.1) == Some(items)
    ensures res.Ok? && r.dataType != String && !(r.inFile && r.Sample() == Str) ==>
      res.value.0.numSamples == |items| && res.value.0.sizeInBytes == Some(|items| * r.Width())
    ensures res.Ok? && (r.dataType == String || !r.inFile) ==> res.value.1 == fs
  {
    if r.dataType == String then
      if isStr then Ok((r.(data := Some(items)), fs)) else Err(ExpectedString)
    else if r.inFile then
      if folder.None? then Err(MissingFolder)
      else
        var path := FilePath(folder.value, r.id);
        if r.Sample() == Str then
          Ok((r.(filePath := Some(path), sizeInBytes := Some(|items|)), fs[path := items]))
        else
          Ok((r.(filePath := Some(path), sizeInBytes := Some(|items| * r.Width()), numSamples := |items|),
              fs[path := items]))
    else
      Ok((r.(data := Some(items), numSamples := |items|, sizeInBytes := Some(|items| * r.Width())), fs))
  }

  // ---------------------------------------------------------------- reading

  /** Reading everything back. A file-backed numeric record returns the file's samples; a
      file-backed text record other than `StrData` reads and splits its file but returns None;
      otherwise the RAM buffer is returned as it is. */
  function ReadData<T>(r: Record<T>, fs: Fs<T>): (res: Result<Option<seq<T>>>)
    ensures res.Err? <==> r.FileBacked() && r.filePath.value !in fs
    ensures res.Err? ==> res.error == FileNotFound
    ensures res.Ok? && (r.dataType == String || r.Sample() != Str || !r.FileBacked()) ==>
      res.value == Contents(r, fs)
    ensures res.Ok? && r.dataType != String && r.Sample() == Str && r.FileBacked() ==> res.value.None?
  {
    if r.FileBacked() then
      if r.filePath.value !in fs then Err(FileNotFound)
      else if r.dataType == String || r.Sample() != Str then Ok(Some(fs[r.filePath.value]))
      else Ok(None)
    else Ok(r.data)
  }

  /** Sequential reads of `cs * width` bytes until an empty read: `cs` samples at a time; a
      zero request reads nothing; a negative request reads the whole rest of the file at once. */
  function FileChunks<T>(file: seq<T>, cs: int): (r: seq<seq<T>>)
    ensures cs > 0 ==> IsChunking(r, file, cs)
    ensures cs == 0 ==> r == []
    ensures cs < 0 ==> Flatten(r) == file && |r| <= 1
  {
    if cs > 0 then Split(file, cs)
    else if cs == 0 || |file| == 0 then []
    else
      assert Flatten([file][1..]) == [];
      [file]
  }

  /** Chunks of a RAM buffer: runs of at most `cs` samples starting at every multiple of `cs`
      below the length. A zero step is an error and a negative step yields nothing. */
  function RamChunks<T>(data: seq<T>, cs: int): (r: Result<seq<seq<T>>>)
    ensures r.Err? <==> cs == 0
    ensures r.Err? ==> r.error == ZeroStep
    ensures cs > 0 ==> r.Ok? && IsChunking(r.value, data, cs)
    ensures cs < 0 ==> r == Ok([])
  {
    if cs == 0 then Err(ZeroStep)
    else if cs < 0 then Ok([])
    else Ok(Split(data, cs))
  }

  /** The chunk generator, consumed to exhaustion. */
  function ReadChunked<T>(r: Record<T>, fs: Fs<T>, cs: int): (res: Result<seq<seq<T>>>)
    ensures cs > 0 ==> (res.Ok? <==> Contents(r, fs).Some?)
    ensures cs > 0 && res.Ok? ==> IsChunking(res.value, Contents(r, fs).value, cs)
    ensures res.Err? && r.data.None? && !r.inFile ==> res.error == NotLoaded
  {
    if r.data.None? && !r.inFile then Err(NotLoaded)
    else if r.FileBacked() then
      if r.filePath.value !in fs then Err(FileNotFound)
      else Ok(FileChunks(fs[r.filePath.value], cs))
    else if r.data.None? then Err(NoneValue)
    else RamChunks(r.data.value, cs)
  }

  /** The overlapped chunk generator, consumed to exhaustion. The overlap argument is never
      used: the windows are the sequential chunks. */
  function ReadOverlapped<T>(r: Record<T>, fs: Fs<T>, cs: int, overlap: int): (res: Result<seq<seq<T>>>)
    ensures res.Ok? <==> ReadChunked(r, fs, cs).Ok?
    ensures res.Ok? ==> res == ReadChunked(r, fs, cs)
  {
    if r.FileBacked() then
      if r.filePath.value !in fs then Err(FileNotFound)
      else Ok(FileChunks(fs[r.filePath.value], cs))
    else if r.data.None? then Err(NoneValue)
    else RamChunks(r.data.value, cs)
  }

  /** Whatever the overlap, the overlapped reader yields exactly the sequential chunks. */
  lemma OverlapIgnored<T>(r: Record<T>, fs: Fs<T>, cs: int, a: int, b: int)
    ensures ReadOverlapped(r, fs, cs, a) == ReadOverlapped(r, fs, cs, b)
    ensures ReadOverlapped(r, fs, cs, a).Ok? ==> ReadOverlapped(r, fs, cs, a) == ReadChunked(r, fs, cs)
  {
  }

  /** Random access to chunk `i` of a file-backed record: seek to byte `i * cs * width`, then
      read `min(cs * width, size - offset)` bytes, or nothing when no bytes remain by the
      record's size. A RAM record is refused. */
  function ReadSpecificChunk<T>(r: Record<T>, fs: Fs<T>, i: int, cs: int): (res: Result<seq<T>>)
    ensures !r.FileBacked() ==> res == Err(NotInFile)
    ensures r.FileBacked() && r.filePath.value !in fs ==> res == Err(FileNotFound)
    ensures r.FileBacked() && i * cs < 0 ==> res.Err?
    ensures (r.FileBacked() && r.filePath.value in fs && i * cs >= 0 && r.sizeInBytes.Some?
             && r.sizeInBytes.value - i * cs * r.Width() <= 0) ==> res == Ok([])
    ensures res.Ok? ==> r.FileBacked() && r.filePath.value in fs && i * cs >= 0
    ensures res.Ok? ==> var file := fs[r.filePath.value]; var start := Min(i * cs, |file|);
      start + |res.value| <= |file| && res.value == file[start .. start + |res.value|]
  {
    if !r.FileBacked() then Err(NotInFile)
    else if r.filePath.value !in fs then Err(FileNotFound)
    else
      var file := fs[r.filePath.value];
      var w := r.Width();
      var pos := i * cs;
      if pos < 0 then Err(NegativeSeek)
      else if r.sizeInBytes.None? then Err(NoneValue)
      else
        var remaining := r.sizeInBytes.value - pos * w;
        if remaining <= 0 then
          Ok([])
        else
          var got :- ReadSamples(file, w, pos, Min(cs * w, remaining));
          Ok(got)
  }

  /** With the size a store records, chunk `i` is the slice [i*cs, min((i+1)*cs, n)) of the
      file, and empty once `i*cs` reaches the end. */
  lemma SpecificChunkIsSlice<T>(r: Record<T>, fs: Fs<T>, i: nat, cs: nat)
    requires r.FileBacked() && r.filePath.value in fs
    requires r.sizeInBytes == Some(|fs[r.filePath.value]| * r.Width())
    requires cs > 0
    ensures var file := fs[r.filePath.value];
      ReadSpecificChunk(r, fs, i, cs) == Ok(if i * cs < |file| then file[i * cs .. Min((i + 1) * cs, |file|)] else [])
  {
    var file := fs[r.filePath.value];
    var w := r.Width();
    var pos := i * cs;
    var n := |file|;
    assert r.sizeInBytes.value - pos * w == (n - pos) * w;
    if pos < n {
      var count := Min(cs, n - pos);
      MulGe(n - pos, w);
      if cs <= n - pos {
        MulMono(cs, n - pos, w);
      } else {
        MulMono(n - pos, cs, w);
      }
      assert Min(cs * w, (n - pos) * w) == count * w;
      ReadWholeSamples(file, w, pos, count);
      MulSucc(i, cs);
    } else {
      MulMono(n, pos, w);
      assert (n - pos) * w == n * w - pos * w;
    }
  }

  /** Random access agrees with the sequential reader: chunk `i` is the i-th chunk yielded. */
  lemma SpecificChunkMatchesSequential<T>(r: Record<T>, fs: Fs<T>, i: nat, cs: nat)
    requires r.FileBacked() && r.filePath.value in fs
    requires r.sizeInBytes == Some(|fs[r.filePath.value]| * r.Width())
    requires cs > 0
    ensures var chunks := ReadChunked(r, fs, cs).value;
      ReadSpecificChunk(r, fs, i, cs) == Ok(if i < |chunks| then chunks[i] else [])
  {
    var file := fs[r.filePath.value];
    SpecificChunkIsSlice(r, fs, i, cs);
    if i < |Split(file, cs)| {
      SplitIndex(file, cs, i);
    } else {
      SplitPastEnd(file, cs, i);
    }
  }

  // ---------------------------------------------------------------- migration and deletion

  /** Moving a RAM record into `<folder>/<id>.dat`: the buffer is written and dropped. A record
      already in a file is left alone. */
  function ConvertRamToFile<T>(r: Record<T>, fs: Fs<T>, folder: Option<Folder>): (res: Result<(Record<T>, Fs<T>)>)
    ensures r.inFile ==> res == Ok((r, fs))
    ensures !r.inFile && folder.None? ==> res == Err(MissingFolder)
    ensures !r.inFile && folder.Some? && r.data.None? ==> res == Err(NoneValue)
    ensures res.Ok? ==> SameIdentity(r, res.value.0) && res.value.0.inFile
    ensures res.Ok? ==> Contents(res.value.0, res.value.1) == Contents(r, fs)
    ensures res.Ok? && !r.inFile ==>
      && res.value.0.data.None?
      && res.value.0.filePath == Some(FilePath(folder.value, r.id))
      && res.value.1 == fs[FilePath(folder.value, r.id) := r.data.value]
  {
    if r.inFile then Ok((r, fs))
    else if folder.None? then Err(MissingFolder)
    else if r.data.None? then Err(NoneValue)
    else
      var path := FilePath(folder.value, r.id);
      Ok((r.(filePath := Some(path), inFile := true, data := None), fs[path := r.data.value]))
  }

  /** Moving a file record into RAM: the file is read, then removed. Refused unless the
      record is file-backed. */
  function ConvertFileToRam<T>(r: Record<T>, fs: Fs<T>): (res: Result<(Record<T>, Fs<T>)>)
    ensures !r.FileBacked() ==> res == Err(NotInFile)
    ensures r.FileBacked() && r.filePath.value !in fs ==> res == Err(FileNotFound)
    ensures res.Ok? <==> Contents(r, fs).Some? && r.FileBacked()
    ensures res.Ok? ==> SameIdentity(r, res.value.0) && !res.value.0.inFile && res.value.0.filePath.None?
    ensures res.Ok? ==> Contents(res.value.0, res.value.1) == Contents(r, fs)
    ensures res.Ok? ==> res.value.1 == fs - {r.filePath.value}
  {
    if !r.FileBacked() then Err(NotInFile)
    else if r.filePath.value !in fs then Err(FileNotFound)
    else Ok((r.(data := Some(fs[r.filePath.value]), inFile := false, filePath := None), fs - {r.filePath.value}))
  }

  /** RAM to file and back restores the buffer and the RAM backend; the file is gone again. */
  lemma MigrationRoundTrip<T>(r: Record<T>, fs: Fs<T>, folder: Folder)
    requires !r.inFile && r.data.Some?
    ensures ConvertRamToFile(r, fs, Some(folder)).Ok?
    ensures var (r1, fs1) := ConvertRamToFile(r, fs, Some(folder)).value;
      ConvertFileToRam(r1, fs1) == Ok((r.(filePath := None), fs - {FilePath(folder, r.id)}))
  {
    var path := FilePath(folder, r.id);
    assert fs[path := r.data.value] - {path} == fs - {path};
  }

  /** Releasing a record's storage: its file is removed (an error if it is already gone) and
      the buffer is dropped. */
  function DeleteRecordData<T>(r: Record<T>, fs: Fs<T>): (res: Result<(Record<T>, Fs<T>)>)
    ensures res.Err? <==> r.FileBacked() && r.filePath.value !in fs
    ensures res.Err? ==> res.error == FileNotFound
    ensures res.Ok? ==> res.value.0 == r.(data := None)
    ensures res.Ok? ==> res.value.1 == if r.FileBacked() then fs - {r.filePath.value} else fs
  {
    if r.FileBacked() then
      if r.filePath.value !in fs then Err(FileNotFound)
      else Ok((r.(data := None), fs - {r.filePath.value}))
    else Ok((r.(data := None), fs))
  }

  /** An FFT collection keeps only the identifiers of its frequency-signal members; anything
      else is refused, and a collection whose list was dropped cannot grow. */
  function AddFftSignal<T, U>(ffts: Record<DataId>, signal: Record<U>): (res: Result<Record<DataId>>)
    requires ffts.dataType == Ffts
    ensures signal.dataType != FreqSignal ==> res == Err(NotFreqSignal)
    ensures signal.dataType == FreqSignal && ffts.data.None? ==> res == Err(NoneValue)
    ensures res.Ok? ==> res.value == ffts.(data := Some(ffts.data.value + [signal.id]))
    ensures res.Ok? ==> signal.id in res.value.data.value
  {
    if signal.dataType != FreqSignal then Err(NotFreqSignal)
    else if ffts.data.None? then Err(NoneValue)
    else Ok(ffts.(data := Some(ffts.data.value + [signal.id])))
  }
}
