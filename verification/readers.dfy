/** The chunk generators as the loops they are: repeated fixed-size reads from a file until a
    read comes back empty, and a stepped walk over a RAM buffer. Each is shown to yield what
    the reference chunking says. */
module Readers {
  import opened Wrappers
  import opened Arith
  import opened Chunks
  import opened Records

  /** The file reader's loop on a file of `w`-byte samples: it keeps requesting `cs` samples'
      worth of bytes and yields each non-empty read, stopping at the first empty one. A zero
      request reads nothing at once; a negative one reads the whole file, then nothing. */
  method ReadFileChunks<T>(file: seq<T>, w: nat, cs: int) returns (chunks: seq<seq<T>>)
    requires w > 0
    ensures chunks == FileChunks(file, cs)
    ensures cs > 0 ==> chunks == Split(file, cs)
  {
    if cs > 0 {
      chunks := ReadFixedChunks(file, w, cs);
      return;
    }
    if cs == 0 {
      ReadWholeSamples(file, w, 0, 0);
    }
    var first := ReadSamples(file, w, 0, cs * w).value;
    if first == [] {
      return [];
    }
    var second := ReadSamples(file, w, |file|, cs * w).value;
    assert second == [];
    assert Flatten([first][1..]) == [];
    return [first];
  }

  /** The read loop for a positive chunk size: every read but the last returns `cs` samples. */
  method ReadFixedChunks<T>(file: seq<T>, w: nat, cs: nat) returns (chunks: seq<seq<T>>)
    requires w > 0 && cs > 0
    ensures chunks == Split(file, cs)
  {
    chunks := [];
    var pos := 0;
    while true
      invariant 0 <= pos <= |file|
      invariant Flatten(chunks) == file[..pos]
      invariant forall k :: 0 <= k < |chunks| ==> 0 < |chunks[k]| <= cs
      invariant pos < |file| ==> forall k :: 0 <= k < |chunks| ==> |chunks[k]| == cs
      invariant forall k :: 0 <= k < |chunks| - 1 ==> |chunks[k]| == cs
      decreases |file| - pos
    {
      ReadWholeSamples(file, w, pos, cs);
      var chunk := ReadSamples(file, w, pos, cs * w).value;
      if chunk == [] {
        break;
      }
      assert chunk == file[pos .. Min(pos + cs, |file|)];
      FlattenAppend(chunks, chunk);
      assert file[..pos] + chunk == file[..Min(pos + cs, |file|)];
      chunks := chunks + [chunk];
      pos := Min(pos + cs, |file|);
    }
    assert file[..pos] == file;
    ChunkingUnique(chunks, file, cs);
  }

  /** The RAM reader's loop: it walks the buffer from index 0 in steps of `cs` and yields the
      run of at most `cs` samples starting at each step. */
  method ReadRamChunks<T>(data: seq<T>, cs: int) returns (r: Result<seq<seq<T>>>)
    ensures r == RamChunks(data, cs)
    ensures cs > 0 ==> r == Ok(Split(data, cs))
  {
    if cs == 0 {
      return Err(ZeroStep);
    }
    if cs < 0 {
      return Ok([]);
    }
    var chunks: seq<seq<T>> := [];
    var i := 0;
    while i < |data|
      invariant 0 <= i <= |data|
      invariant Flatten(chunks) == data[..i]
      invariant forall k :: 0 <= k < |chunks| ==> 0 < |chunks[k]| <= cs
      invariant i < |data| ==> forall k :: 0 <= k < |chunks| ==> |chunks[k]| == cs
      invariant forall k :: 0 <= k < |chunks| - 1 ==> |chunks[k]| == cs
      decreases |data| - i
    {
      var chunk := PySlice(data, i, i + cs);
      assert chunk == data[i .. Min(i + cs, |data|)];
      FlattenAppend(chunks, chunk);
      assert data[..i] + chunk == data[..Min(i + cs, |data|)];
      chunks := chunks + [chunk];
      i := Min(i + cs, |data|);
    }
    assert data[..i] == data;
    ChunkingUnique(chunks, data, cs);
    return Ok(chunks);
  }
}
