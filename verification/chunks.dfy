/** Sequence arithmetic shared by the readers: Python slicing, chunking, and reading
    a flat file of fixed-width samples. */
module Chunks {
  import opened Wrappers
  import opened Arith

  /** Concatenation of a sequence of chunks. */
  function Flatten<T>(xss: seq<seq<T>>): (r: seq<T>)
  {
    if xss == [] then [] else xss[0] + Flatten(xss[1..])
  }

  /** The running total a writer keeps: the sum of the chunk lengths. */
  function TotalLength<T>(xss: seq<seq<T>>): nat
  {
    if xss == [] then 0 else |xss[0]| + TotalLength(xss[1..])
  }

  lemma {:induction false} FlattenLength<T>(xss: seq<seq<T>>)
    ensures |Flatten(xss)| == TotalLength(xss)
  {
    if xss != [] {
      FlattenLength(xss[1..]);
    }
  }

  lemma {:induction false} FlattenAppend<T>(xss: seq<seq<T>>, ys: seq<T>)
    ensures Flatten(xss + [ys]) == Flatten(xss) + ys
  {
    if xss == [] {
      assert [] + [ys] == [ys];
    } else {
      assert (xss + [ys])[1..] == xss[1..] + [ys];
      FlattenAppend(xss[1..], ys);
    }
  }

  function Min(a: int, b: int): int
  {
    if a <= b then a else b
  }

  /** ceil(n / d) for a positive divisor. */
  function CeilDiv(n: nat, d: nat): nat
    requires d > 0
  {
    (n + d - 1) / d
  }

  /** A Python slice bound: negative values count from the end, then clip to [0, n]. */
  function Clip(i: int, n: nat): (r: nat)
    ensures r <= n
    ensures 0 <= i <= n ==> r == i
    ensures i > n ==> r == n
    ensures i < 0 ==> r == if i + n < 0 then 0 else i + n
  {
    if i < 0 then (if i + n < 0 then 0 else i + n) else if i > n then n else i
  }

  /** Python's `s[a:b]` with step 1. */
  function PySlice<T>(s: seq<T>, a: int, b: int): (r: seq<T>)
    ensures 0 <= a <= b <= |s| ==> r == s[a..b]
    ensures 0 <= a && |s| <= a ==> r == []
    ensures 0 <= a <= |s| && |s| <= b ==> r == s[a..]
    ensures |r| <= |s|
  {
    var lo := Clip(a, |s|);
    var hi := Clip(b, |s|);
    if lo <= hi then s[lo..hi] else []
  }

  /** The chunks `range(0, len(s), cs)` walks: every chunk has `cs` elements except a shorter,
      non-empty last one, and together they are `s`. */
  function Split<T>(s: seq<T>, cs: nat): (r: seq<seq<T>>)
    requires cs > 0
    ensures Flatten(r) == s
    ensures forall k :: 0 <= k < |r| ==> 0 < |r[k]| <= cs
    ensures forall k :: 0 <= k < |r| - 1 ==> |r[k]| == cs
    decreases |s|
  {
    if |s| == 0 then []
    else if |s| <= cs then [s]
    else [s[..cs]] + Split(s[cs..], cs)
  }

  /** An independent description of a chunking of `s` into pieces of `cs`. */
  ghost predicate IsChunking<T>(xss: seq<seq<T>>, s: seq<T>, cs: nat)
  {
    && Flatten(xss) == s
    && (forall k :: 0 <= k < |xss| ==> 0 < |xss[k]| <= cs)
    && (forall k :: 0 <= k < |xss| - 1 ==> |xss[k]| == cs)
  }

  /** Split is the only chunking: any sequence of chunks of that shape that joins to `s` is Split(s, cs). */
  lemma {:induction false} ChunkingUnique<T>(xss: seq<seq<T>>, s: seq<T>, cs: nat)
    requires cs > 0
    requires IsChunking(xss, s, cs)
    ensures xss == Split(s, cs)
    decreases |xss|
  {
    if xss == [] {
    } else if |xss| == 1 {
      assert Flatten(xss[1..]) == [];
      assert s == xss[0];
    } else {
      var rest := xss[1..];
      assert |xss[0]| == cs;
      assert s == xss[0] + Flatten(rest);
      FlattenLength(rest);
      assert |rest[0]| > 0;
      assert Flatten(rest) == rest[0] + Flatten(rest[1..]);
      assert |s| > cs;
      assert s[..cs] == xss[0];
      assert s[cs..] == Flatten(rest);
      assert forall k :: 0 <= k < |rest| ==> rest[k] == xss[k + 1];
      ChunkingUnique(rest, s[cs..], cs);
    }
  }

  /** Split yields as few chunks of cs as can hold the data: (c - 1) * cs < n <= c * cs. */
  lemma {:induction false} SplitCover<T>(s: seq<T>, cs: nat)
    requires cs > 0
    ensures (|Split(s, cs)| - 1) * cs < |s| <= |Split(s, cs)| * cs
    decreases |s|
  {
    if |s| == 0 {
    } else if |s| <= cs {
    } else {
      var c := |Split(s[cs..], cs)|;
      SplitCover(s[cs..], cs);
      assert |Split(s, cs)| == c + 1;
      assert (c + 1) * cs == c * cs + cs;
      assert (c - 1) * cs + cs == c * cs;
    }
  }

  /** Split yields ceil(n / cs) chunks. */
  lemma SplitCount<T>(s: seq<T>, cs: nat)
    requires cs > 0
    ensures |Split(s, cs)| == CeilDiv(|s|, cs)
  {
    SplitCover(s, cs);
    CeilDivUnique(|s|, cs, |Split(s, cs)|);
  }

  /** Chunk k of Split is the slice [k*cs, min((k+1)*cs, n)). */
  lemma {:induction false} SplitIndex<T>(s: seq<T>, cs: nat, k: nat)
    requires cs > 0
    requires k < |Split(s, cs)|
    ensures k * cs < |s|
    ensures Split(s, cs)[k] == s[k * cs .. Min((k + 1) * cs, |s|)]
    decreases |s|
  {
    if |s| <= cs {
      assert k == 0;
    } else if k == 0 {
    } else {
      var t := s[cs..];
      assert Split(s, cs)[k] == Split(t, cs)[k - 1] by {
        assert Split(s, cs) == [s[..cs]] + Split(t, cs);
      }
      SplitIndex(t, cs, k - 1);
      ShiftChunk(s, t, cs, k);
    }
  }

  /** Chunk k - 1 of the data after the first chunk is chunk k of the data. */
  lemma ShiftChunk<T>(s: seq<T>, t: seq<T>, cs: nat, k: nat)
    requires 0 < cs < |s| && k > 0
    requires t == s[cs..]
    requires (k - 1) * cs < |t|
    ensures k * cs < |s|
    ensures t[(k - 1) * cs .. Min(k * cs, |t|)] == s[k * cs .. Min((k + 1) * cs, |s|)]
  {
    MulSucc(k - 1, cs);
    MulSucc(k, cs);
    var a := (k - 1) * cs;
    var b := Min(k * cs, |t|);
    assert a + cs == k * cs && b + cs == Min((k + 1) * cs, |s|);
    assert forall j :: a <= j < b ==> t[j] == s[j + cs];
  }

  /** A chunk index at or beyond the chunk count starts at or after the end of the data. */
  lemma SplitPastEnd<T>(s: seq<T>, cs: nat, k: nat)
    requires cs > 0
    requires k >= |Split(s, cs)|
    ensures k * cs >= |s|
  {
    SplitCover(s, cs);
    MulMono(|Split(s, cs)|, k, cs);
  }

  /** The slice `s[i*cs : min(i*cs + cs, n)]` is chunk `i` of Split, or empty past the last chunk. */
  lemma SliceIsChunk<T>(s: seq<T>, i: nat, cs: nat)
    requires cs > 0
    ensures PySlice(s, i * cs, Min(i * cs + cs, |s|)) == if i < |Split(s, cs)| then Split(s, cs)[i] else []
  {
    MulSucc(i, cs);
    if i < |Split(s, cs)| {
      SplitIndex(s, cs, i);
    } else {
      SplitPastEnd(s, cs, i);
    }
  }

  /** A read of `n` bytes from a file of `w`-byte samples whose cursor sits at sample `pos`, decoded:
      a negative `n` reads to the end; otherwise the bytes actually read must be a whole
      number of samples, else unpacking fails. */
  function ReadSamples<T>(file: seq<T>, w: nat, pos: nat, n: int): (r: Result<seq<T>>)
    requires w > 0
    ensures n < 0 ==> r == Ok(file[Min(pos, |file|)..])
    ensures r.Ok? ==> Min(pos, |file|) + |r.value| <= |file|
    ensures r.Ok? ==> r.value == file[Min(pos, |file|) .. Min(pos, |file|) + |r.value|]
  {
    var start := Min(pos, |file|);
    if n < 0 then Ok(file[start..])
    else
      var m := |file| - start;
      var got := Min(n, m * w);
      if got % w != 0 then Err(FormatError)
      else
        var q := got / w;
        DivBelow(got, m, w);
        assert q <= m;
        Ok(file[start .. start + q])
  }

  /** A request for a whole number of samples never fails: `count * w` bytes from sample `pos`
      are the next `count` samples, clipped at the end of the file. */
  lemma ReadWholeSamples<T>(file: seq<T>, w: nat, pos: nat, count: nat)
    requires w > 0
    ensures ReadSamples(file, w, pos, count * w) == Ok(file[Min(pos, |file|) .. Min(pos + count, |file|)])
  {
    var start := Min(pos, |file|);
    var m := |file| - start;
    if count <= m {
      MulMono(count, m, w);
      MulDivCancel(count, w);
    } else {
      MulMono(m, count, w);
      MulDivCancel(m, w);
    }
  }
}
