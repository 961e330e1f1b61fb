/** The sample-type table: each tag of a record's samples has a struct format and a byte width. */
module Samples {
  import opened Wrappers

  datatype SampleType = Float32 | Float64 | Int32 | Int64 | Str

  /** The tag a record is created with. */
  function TagOf(t: SampleType): string
  {
    match t
    case Float32 => "float32"
    case Float64 => "float64"
    case Int32 => "int32"
    case Int64 => "int64"
    case Str => "str"
  }

  /** The tags the table knows. */
  predicate KnownTag(tag: string)
  {
    tag == "float32" || tag == "float64" || tag == "int32" || tag == "int64" || tag == "str"
  }

  /** Reads a tag back; any tag outside the table is rejected. */
  function ParseSampleType(tag: string): (r: Result<SampleType>)
    ensures r.Ok? <==> KnownTag(tag)
    ensures r.Ok? ==> TagOf(r.value) == tag
    ensures !r.Ok? ==> r == Err(UnsupportedSampleType)
  {
    if tag == "float32" then Ok(Float32)
    else if tag == "float64" then Ok(Float64)
    else if tag == "int32" then Ok(Int32)
    else if tag == "int64" then Ok(Int64)
    else if tag == "str" then Ok(Str)
    else Err(UnsupportedSampleType)
  }

  /** Bytes per sample: 4 for the 32-bit types, 8 for the 64-bit ones, 1 per character of text. */
  function Width(t: SampleType): (w: nat)
    ensures w > 0
    ensures w == 1 <==> t == Str
    ensures w == 8 <==> t == Float64 || t == Int64
  {
    match t
    case Float32 => 4
    case Float64 => 8
    case Int32 => 4
    case Int64 => 8
    case Str => 1
  }

  /** The struct format character of a sample type. */
  function FormatChar(t: SampleType): char
  {
    match t
    case Float32 => 'f'
    case Float64 => 'd'
    case Int32 => 'i'
    case Int64 => 'q'
    case Str => 's'
  }

  /** The lookup a record performs at construction: format character and size, or an error. */
  function SampleFormatAndSize(tag: string): (r: Result<(char, nat)>)
    ensures r.Ok? <==> KnownTag(tag)
    ensures tag == "float32" ==> r == Ok(('f', 4))
    ensures tag == "float64" ==> r == Ok(('d', 8))
    ensures tag == "int32" ==> r == Ok(('i', 4))
    ensures tag == "int64" ==> r == Ok(('q', 8))
    ensures tag == "str" ==> r == Ok(('s', 1))
    ensures !KnownTag(tag) ==> r == Err(UnsupportedSampleType)
  {
    var t :- ParseSampleType(tag);
    Ok((FormatChar(t), Width(t)))
  }

  /** Tags and sample types are in one-to-one correspondence. */
  lemma TagRoundTrip(t: SampleType, tag: string)
    ensures ParseSampleType(TagOf(t)) == Ok(t)
    ensures ParseSampleType(tag) == Ok(t) <==> tag == TagOf(t)
  {
  }

  /** Distinct sample types have distinct format characters, so the format determines the type. */
  lemma FormatDeterminesType(t: SampleType, u: SampleType)
    ensures FormatChar(t) == FormatChar(u) <==> t == u
  {
  }
}
