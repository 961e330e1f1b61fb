/** A frequency limit: limit points (frequency, level) kept in insertion order, the range of
    frequencies ever added, and a level interpolated between the points linearly or on a
    logarithmic frequency axis. */
module FreqLimits {
  import opened Wrappers

  datatype Point = Point(freq: real, level: real)

  datatype Interpolation = Linear | Log

  datatype FreqLimits = FreqLimits(
    points: seq<Point>,
    interpolation: Option<Interpolation>,
    freqMin: Option<real>,
    freqMax: Option<real>)

  /** An interpolated level. A logarithmic level is kept as the formula
      l0 + (l1 - l0) * ln(f / f0) / ln(f1 / f0), whose logarithms are not computed here. */
  datatype Level = Exact(v: real) | LogCurve(l0: real, l1: real, f: real, f0: real, f1: real)

  function Empty(): FreqLimits
  {
    FreqLimits([], None, None, None)
  }

  /** Accepts the two interpolation names and nothing else. */
  function SetInterpolationType(l: FreqLimits, name: string): (r: Result<FreqLimits>)
    ensures r.Ok? <==> name == "linear" || name == "log"
    ensures r.Err? ==> r.error == InvalidInterpolation
    ensures r.Ok? ==> r.value.points == l.points && r.value.freqMin == l.freqMin && r.value.freqMax == l.freqMax
    ensures r.Ok? ==> (r.value.interpolation == Some(Linear) <==> name == "linear")
    ensures r.Ok? ==> r.value.interpolation.Some?
  {
    if name == "linear" then Ok(l.(interpolation := Some(Linear)))
    else if name == "log" then Ok(l.(interpolation := Some(Log)))
    else Err(InvalidInterpolation)
  }

  /** The frequency range bounds every point held. */
  predicate RangeCovers(l: FreqLimits)
  {
    && (l.points != [] ==> l.freqMin.Some? && l.freqMax.Some?)
    && (l.freqMin.Some? <==> l.freqMax.Some?)
    && forall k :: 0 <= k < |l.points| ==> l.freqMin.value <= l.points[k].freq <= l.freqMax.value
  }

  /** Appends a point, unsorted, and widens the frequency range to include it. */
  function AddLimitPoint(l: FreqLimits, f: real, level: real): (r: FreqLimits)
    ensures r.points == l.points + [Point(f, level)]
    ensures r.interpolation == l.interpolation
    ensures r.freqMin.Some? && r.freqMin.value <= f && (r.freqMin.value == f || r.freqMin == l.freqMin)
    ensures r.freqMax.Some? && f <= r.freqMax.value && (r.freqMax.value == f || r.freqMax == l.freqMax)
    ensures l.freqMin.Some? ==> r.freqMin.value <= l.freqMin.value
    ensures l.freqMax.Some? ==> r.freqMax.value >= l.freqMax.value
    ensures RangeCovers(l) ==> RangeCovers(r)
  {
    var lo := if l.freqMin.None? || f < l.freqMin.value then f else l.freqMin.value;
    var hi := if l.freqMax.None? || f > l.freqMax.value then f else l.freqMax.value;
    l.(points := l.points + [Point(f, level)], freqMin := Some(lo), freqMax := Some(hi))
  }

  /** Forgets the points; the interpolation type and the frequency range are kept. */
  function ClearLimitPoints(l: FreqLimits): (r: FreqLimits)
    ensures r.points == []
    ensures r.interpolation == l.interpolation && r.freqMin == l.freqMin && r.freqMax == l.freqMax
    ensures RangeCovers(l) ==> RangeCovers(r)
  {
    l.(points := [])
  }

  /** Adding points one after another. */
  function AddAll(l: FreqLimits, ps: seq<Point>): (r: FreqLimits)
    decreases |ps|
  {
    if ps == [] then l else AddAll(AddLimitPoint(l, ps[0].freq, ps[0].level), ps[1..])
  }

  function MinFreq(ps: seq<Point>): real
    requires ps != []
  {
    if |ps| == 1 then ps[0].freq
    else if ps[0].freq <= MinFreq(ps[1..]) then ps[0].freq else MinFreq(ps[1..])
  }

  function MaxFreq(ps: seq<Point>): real
    requires ps != []
  {
    if |ps| == 1 then ps[0].freq
    else if ps[0].freq >= MaxFreq(ps[1..]) then ps[0].freq else MaxFreq(ps[1..])
  }

  /** From an empty limit, the recorded range is exactly the least and greatest frequency added. */
  lemma {:induction false} AddAllRange(ps: seq<Point>)
    requires ps != []
    ensures AddAll(Empty(), ps).points == ps
    ensures AddAll(Empty(), ps).freqMin == Some(MinFreq(ps))
    ensures AddAll(Empty(), ps).freqMax == Some(MaxFreq(ps))
  {
    AddAllFrom(Empty(), ps);
  }

  /** Adding a list keeps the least and greatest frequency of what was there and what came. */
  lemma {:induction false} AddAllFrom(l: FreqLimits, ps: seq<Point>)
    requires ps != []
    requires l.freqMin.Some? <==> l.freqMax.Some?
    ensures AddAll(l, ps).points == l.points + ps
    ensures AddAll(l, ps).freqMin == Some(if l.freqMin.Some? && l.freqMin.value < MinFreq(ps) then l.freqMin.value else MinFreq(ps))
    ensures AddAll(l, ps).freqMax == Some(if l.freqMax.Some? && l.freqMax.value > MaxFreq(ps) then l.freqMax.value else MaxFreq(ps))
    decreases |ps|
  {
    var l1 := AddLimitPoint(l, ps[0].freq, ps[0].level);
    if |ps| > 1 {
      AddAllFrom(l1, ps[1..]);
      assert l.points + ps == l1.points + ps[1..];
    }
  }

  /** `interpolate`: no points or no interpolation type raise; frequencies at or beyond the
      first point give the first level, at or beyond the last point the last level; in between
      the first point at or above the frequency and its predecessor bracket it. */
  function Interpolate(l: FreqLimits, f: real): (r: Result<Level>)
    ensures l.points == [] ==> r == Err(NoPoints)
    ensures l.points != [] && l.interpolation.None? ==> r == Err(InterpolationUnset)
    ensures l.points != [] && l.interpolation.Some? && f <= l.points[0].freq ==> r == Ok(Exact(l.points[0].level))
    ensures l.points != [] && l.interpolation.Some? && l.points[0].freq < f && l.points[|l.points| - 1].freq <= f
            ==> r == Ok(Exact(l.points[|l.points| - 1].level))
    ensures r.Err? ==> r.error != RangeNotFound
    ensures l.interpolation == Some(Linear) && l.points != [] ==> r.Ok? && r.value.Exact?
    ensures l.interpolation == Some(Log) && r.Ok? && r.value.LogCurve? ==> 0.0 < r.value.f0 < r.value.f <= r.value.f1
    ensures l.points != [] && l.interpolation.Some? && l.points[0].freq < f < l.points[|l.points| - 1].freq ==>
      && (exists i: nat :: FirstAtOrAbove(l.points, f, i))
      && (forall i: nat :: FirstAtOrAbove(l.points, f, i) ==>
            r == Segment(l.points[i - 1], l.points[i], f, l.interpolation.value))
  {
    var ps := l.points;
    if ps == [] then Err(NoPoints)
    else if l.interpolation.None? then Err(InterpolationUnset)
    else if f <= ps[0].freq then Ok(Exact(ps[0].level))
    else if f >= ps[|ps| - 1].freq then Ok(Exact(ps[|ps| - 1].level))
    else
      var mode := l.interpolation.value;
      BracketFrom(ps, f, 1);
      assert forall i: nat :: FirstAtOrAbove(ps, f, i) ==> Scan(ps, f, 1, mode) == Segment(ps[i - 1], ps[i], f, mode) by {
        forall i: nat | FirstAtOrAbove(ps, f, i) {
          ScanAtFirst(ps, f, 1, i, mode);
        }
      }
      Scan(ps, f, 1, mode)
  }

  /** Points i-1 and i bracket `f`, and point i is the first point after the first one that lies
      at or above `f`. */
  predicate FirstAtOrAbove(ps: seq<Point>, f: real, i: nat)
  {
    && 1 <= i < |ps|
    && ps[i - 1].freq < f <= ps[i].freq
    && forall j :: 1 <= j < i ==> ps[j].freq < f
  }

  /** A frequency strictly inside the first and last points has a first bracket. */
  lemma {:induction false} BracketFrom(ps: seq<Point>, f: real, i: nat)
    requires 1 <= i < |ps|
    requires ps[i - 1].freq < f < ps[|ps| - 1].freq
    requires forall j :: 1 <= j < i ==> ps[j].freq < f
    ensures exists k: nat :: FirstAtOrAbove(ps, f, k)
    decreases |ps| - i
  {
    if ps[i].freq >= f {
      assert FirstAtOrAbove(ps, f, i);
    } else {
      BracketFrom(ps, f, i + 1);
    }
  }

  /** The scan started at or before the first bracket stops at it. */
  lemma {:induction false} ScanAtFirst(ps: seq<Point>, f: real, i: nat, k: nat, mode: Interpolation)
    requires FirstAtOrAbove(ps, f, k) && 1 <= i <= k
    requires ps[i - 1].freq < f < ps[|ps| - 1].freq
    ensures Scan(ps, f, i, mode) == Segment(ps[k - 1], ps[k], f, mode)
    decreases k - i
  {
    if ps[i].freq < f {
      ScanAtFirst(ps, f, i + 1, k, mode);
    }
  }

  /** The bracketing loop over the points from the second on: the first point at or above `f`
      closes the bracket. Every point passed lies below `f`, so the bracket's width is
      positive, and the last point lies above `f`, so the loop never runs out. */
  function Scan(ps: seq<Point>, f: real, i: nat, mode: Interpolation): (r: Result<Level>)
    requires 1 <= i < |ps|
    requires ps[i - 1].freq < f < ps[|ps| - 1].freq
    ensures r.Ok? || (mode == Log && r == Err(NonPositiveFrequency))
    ensures mode == Linear ==> r.Ok? && r.value.Exact?
    ensures r.Ok? && r.value.LogCurve? ==> mode == Log && 0.0 < r.value.f0 < r.value.f <= r.value.f1
    decreases |ps| - i
  {
    if ps[i].freq >= f then Segment(ps[i - 1], ps[i], f, mode)
    else Scan(ps, f, i + 1, mode)
  }

  /** The level between two bracketing points. */
  function Segment(a: Point, b: Point, f: real, mode: Interpolation): (r: Result<Level>)
    requires a.freq < f <= b.freq
    ensures mode == Linear ==> r.Ok? && r.value.Exact?
    ensures mode == Linear ==> Between(r.value.v, a.level, b.level)
    ensures mode == Linear && f == b.freq ==> r == Ok(Exact(b.level))
    ensures mode == Linear ==> (r.value.v - a.level) * (b.freq - a.freq) == (b.level - a.level) * (f - a.freq)
    ensures mode == Log ==> (r.Ok? <==> a.freq > 0.0)
    ensures mode == Log && r.Err? ==> r.error == NonPositiveFrequency
    ensures mode == Log && r.Ok? ==> r.value == LogCurve(a.level, b.level, f, a.freq, b.freq)
  {
    match mode
    case Linear =>
      var t := (f - a.freq) / (b.freq - a.freq);
      RatioUnit(f - a.freq, b.freq - a.freq);
      LerpBetween(a.level, b.level, t);
      assert t * (b.freq - a.freq) == f - a.freq;
      Ok(Exact(a.level + (b.level - a.level) * t))
    case Log =>
      if a.freq <= 0.0 || b.freq <= 0.0 then Err(NonPositiveFrequency)
      else Ok(LogCurve(a.level, b.level, f, a.freq, b.freq))
  }

  /** A ratio of a positive numerator to a denominator at least as large lies in (0, 1], and is
      1 exactly when the two are equal. */
  lemma RatioUnit(num: real, den: real)
    requires 0.0 < num <= den
    ensures 0.0 < num / den <= 1.0
    ensures num == den ==> num / den == 1.0
  {
  }

  /** x + (y - x) * t for t in [0, 1] lies between x and y, and is y at t = 1. */
  lemma LerpBetween(x: real, y: real, t: real)
    requires 0.0 <= t <= 1.0
    ensures Between(x + (y - x) * t, x, y)
    ensures t == 1.0 ==> x + (y - x) * t == y
  {
    var d := y - x;
    assert d - d * t == d * (1.0 - t);
    if x <= y {
      MulNonneg(d, t);
      MulNonneg(d, 1.0 - t);
    } else {
      MulNonneg(-d, t);
      MulNonneg(-d, 1.0 - t);
      assert -d * t == -(d * t) && -d * (1.0 - t) == -(d * (1.0 - t));
    }
  }

  lemma MulNonneg(a: real, b: real)
    requires a >= 0.0 && b >= 0.0
    ensures a * b >= 0.0
  {
  }

  predicate Between(v: real, x: real, y: real)
  {
    (x <= v <= y) || (y <= v <= x)
  }

  /** Every level held lies in [lo, hi]. */
  predicate LevelsWithin(ps: seq<Point>, lo: real, hi: real)
  {
    forall k :: 0 <= k < |ps| ==> lo <= ps[k].level <= hi
  }

  /** A linear limit never leaves the band of its points' levels. */
  lemma LinearWithinLevels(l: FreqLimits, f: real, lo: real, hi: real)
    requires l.interpolation == Some(Linear) && l.points != []
    requires LevelsWithin(l.points, lo, hi)
    ensures lo <= Interpolate(l, f).value.v <= hi
  {
    var ps := l.points;
    if ps[0].freq < f < ps[|ps| - 1].freq {
      ScanWithin(ps, f, 1, lo, hi);
    }
  }

  lemma {:induction false} ScanWithin(ps: seq<Point>, f: real, i: nat, lo: real, hi: real)
    requires 1 <= i < |ps|
    requires ps[i - 1].freq < f < ps[|ps| - 1].freq
    requires LevelsWithin(ps, lo, hi)
    ensures lo <= Scan(ps, f, i, Linear).value.v <= hi
    decreases |ps| - i
  {
    if ps[i].freq >= f {
      assert lo <= ps[i - 1].level <= hi && lo <= ps[i].level <= hi;
    } else {
      ScanWithin(ps, f, i + 1, lo, hi);
    }
  }

  /** Frequencies strictly increasing, the order the limit's points are meant to be added in. */
  predicate Increasing(ps: seq<Point>)
  {
    forall j, k :: 0 <= j < k < |ps| ==> ps[j].freq < ps[k].freq
  }

  /** With increasing frequencies, a linear limit passes through its own points. */
  lemma LinearThroughPoints(l: FreqLimits, j: nat)
    requires l.interpolation == Some(Linear)
    requires Increasing(l.points) && j < |l.points|
    ensures Interpolate(l, l.points[j].freq) == Ok(Exact(l.points[j].level))
  {
    var ps := l.points;
    var f := ps[j].freq;
    if 0 < j < |ps| - 1 {
      ScanReachesPoint(ps, j, 1);
    }
  }

  lemma {:induction false} ScanReachesPoint(ps: seq<Point>, j: nat, i: nat)
    requires Increasing(ps)
    requires 1 <= i <= j < |ps| - 1
    ensures ps[i - 1].freq < ps[j].freq < ps[|ps| - 1].freq
    ensures Scan(ps, ps[j].freq, i, Linear) == Ok(Exact(ps[j].level))
    decreases j - i
  {
    if i < j {
      ScanReachesPoint(ps, j, i + 1);
    }
  }

  /** The limit (10 Hz, -20), (20 Hz, -10), (40 Hz, -5) interpolated linearly at 15 Hz gives -15. */
  lemma LinearExample()
    ensures var l := AddAll(FreqLimits([], Some(Linear), None, None), [Point(10.0, -20.0), Point(20.0, -10.0), Point(40.0, -5.0)]);
      Interpolate(l, 15.0) == Ok(Exact(-15.0))
  {
    var ps := [Point(10.0, -20.0), Point(20.0, -10.0), Point(40.0, -5.0)];
    var l0 := FreqLimits([], Some(Linear), None, None);
    AddAllFrom(l0, ps);
    assert AddAll(l0, ps).points == ps;
    assert Scan(ps, 15.0, 1, Linear) == Segment(ps[0], ps[1], 15.0, Linear);
  }

  /** Switching the same limit to log, clearing it and adding (10 Hz, -20), (1000 Hz, -10):
      the level at 100 Hz is the log curve between those two points, and the recorded range,
      which clearing keeps, now runs from 10 Hz to 1000 Hz. */
  lemma LogExample()
    ensures var l0 := AddAll(FreqLimits([], Some(Linear), None, None), [Point(10.0, -20.0), Point(20.0, -10.0), Point(40.0, -5.0)]);
      var l1 := SetInterpolationType(l0, "log").value;
      var l := AddAll(ClearLimitPoints(l1), [Point(10.0, -20.0), Point(1000.0, -10.0)]);
      && Interpolate(l, 100.0) == Ok(LogCurve(-20.0, -10.0, 100.0, 10.0, 1000.0))
      && l.freqMin == Some(10.0) && l.freqMax == Some(1000.0)
  {
    var ps := [Point(10.0, -20.0), Point(20.0, -10.0), Point(40.0, -5.0)];
    var qs := [Point(10.0, -20.0), Point(1000.0, -10.0)];
    var l0 := FreqLimits([], Some(Linear), None, None);
    AddAllFrom(l0, ps);
    var l1 := SetInterpolationType(AddAll(l0, ps), "log").value;
    var c := ClearLimitPoints(l1);
    AddAllFrom(c, qs);
    assert AddAll(c, qs).points == qs;
    assert Scan(qs, 100.0, 1, Log) == Segment(qs[0], qs[1], 100.0, Log);
  }
}

/** A temporal limit: points (level, transparency time, release time) whose transparency times
    strictly increase, the time range they span, and the points inside a window. */
module TempLimits {
  import opened Wrappers

  datatype TempPoint = TempPoint(level: real, transparency: real, release: real)

  datatype TempLimits = TempLimits(points: seq<TempPoint>, timeMin: Option<real>, timeMax: Option<real>)

  function Empty(): TempLimits
  {
    TempLimits([], None, None)
  }

  predicate Increasing(ps: seq<TempPoint>)
  {
    forall j, k :: 0 <= j < k < |ps| ==> ps[j].transparency < ps[k].transparency
  }

  function MaxRelease(ps: seq<TempPoint>): real
    requires ps != []
  {
    if |ps| == 1 then ps[0].release
    else if ps[0].release >= MaxRelease(ps[1..]) then ps[0].release else MaxRelease(ps[1..])
  }

  /** The release time no point exceeds is MaxRelease, and some point reaches it. */
  lemma {:induction false} MaxReleaseBounds(ps: seq<TempPoint>)
    requires ps != []
    ensures forall k :: 0 <= k < |ps| ==> ps[k].release <= MaxRelease(ps)
    ensures exists k :: 0 <= k < |ps| && ps[k].release == MaxRelease(ps)
  {
    if |ps| == 1 {
      assert ps[0].release == MaxRelease(ps);
    } else {
      MaxReleaseBounds(ps[1..]);
      var k :| 0 <= k < |ps[1..]| && ps[1..][k].release == MaxRelease(ps[1..]);
      assert ps[k + 1].release == MaxRelease(ps[1..]);
      forall j | 1 <= j < |ps| ensures ps[j].release <= MaxRelease(ps) {
        assert ps[j] == ps[1..][j - 1];
      }
      if ps[0].release >= MaxRelease(ps[1..]) {
        assert ps[0].release == MaxRelease(ps);
      } else {
        assert ps[k + 1].release == MaxRelease(ps);
      }
    }
  }

  lemma {:induction false} MaxReleaseSnoc(ps: seq<TempPoint>, p: TempPoint)
    requires ps != []
    ensures MaxRelease(ps + [p]) == if MaxRelease(ps) >= p.release then MaxRelease(ps) else p.release
  {
    if |ps| == 1 {
      assert (ps + [p])[1..] == [p];
    } else {
      assert (ps + [p])[1..] == ps[1..] + [p];
      MaxReleaseSnoc(ps[1..], p);
    }
  }

  /** What the limit's bookkeeping promises: transparency times strictly increase, and the time
      range runs from the first transparency time to the latest release time, or is unset when
      there are no points. */
  predicate Valid(l: TempLimits)
  {
    && Increasing(l.points)
    && (l.points == [] ==> l.timeMin.None? && l.timeMax.None?)
    && (l.points != [] ==> l.timeMin == Some(l.points[0].transparency) && l.timeMax == Some(MaxRelease(l.points)))
  }

  /** Appends a point whose transparency time follows the last one's; anything else is refused. */
  function AddLimitPoint(l: TempLimits, level: real, t: real, release: real): (r: Result<TempLimits>)
    ensures r.Ok? <==> l.points == [] || l.points[|l.points| - 1].transparency < t
    ensures r.Err? ==> r.error == NotIncreasing
    ensures r.Ok? ==> r.value.points == l.points + [TempPoint(level, t, release)]
    ensures r.Ok? && Valid(l) ==> Valid(r.value)
  {
    var ps := l.points;
    if ps != [] && t <= ps[|ps| - 1].transparency then Err(NotIncreasing)
    else
      var lo := if l.timeMin.None? || t < l.timeMin.value then t else l.timeMin.value;
      var hi := if l.timeMax.None? || release > l.timeMax.value then release else l.timeMax.value;
      var r := l.(points := ps + [TempPoint(level, t, release)], timeMin := Some(lo), timeMax := Some(hi));
      AddKeepsValid(l, r, level, t, release);
      Ok(r)
  }

  lemma AddKeepsValid(l: TempLimits, r: TempLimits, level: real, t: real, release: real)
    requires l.points == [] || l.points[|l.points| - 1].transparency < t
    requires r.points == l.points + [TempPoint(level, t, release)]
    requires r.timeMin == Some(if l.timeMin.None? || t < l.timeMin.value then t else l.timeMin.value)
    requires r.timeMax == Some(if l.timeMax.None? || release > l.timeMax.value then release else l.timeMax.value)
    ensures Valid(l) ==> Valid(r)
  {
    if Valid(l) && l.points != [] {
      MaxReleaseSnoc(l.points, TempPoint(level, t, release));
      assert l.points[0].transparency <= l.points[|l.points| - 1].transparency;
    }
  }

  /** Forgets the points and the time range. */
  function ClearLimitPoints(l: TempLimits): (r: TempLimits)
    ensures r.points == [] && Valid(r)
    ensures r == Empty()
  {
    TempLimits([], None, None)
  }

  /** The points lying wholly inside [start, end], in their order. */
  function Filter(ps: seq<TempPoint>, start: real, end: real): (r: seq<TempPoint>)
    ensures forall x :: x in r <==> x in ps && start <= x.transparency && x.release <= end
    ensures |r| <= |ps|
  {
    if ps == [] then []
    else
      var rest := Filter(ps[1..], start, end);
      assert ps == [ps[0]] + ps[1..];
      if start <= ps[0].transparency && ps[0].release <= end then [ps[0]] + rest
      else rest
  }

  /** Filtering keeps the points in their order. */
  lemma {:induction false} FilterIncreasing(ps: seq<TempPoint>, start: real, end: real)
    requires Increasing(ps)
    ensures Increasing(Filter(ps, start, end))
  {
    if ps != [] {
      var rest := Filter(ps[1..], start, end);
      FilterIncreasing(ps[1..], start, end);
      forall x | x in rest ensures ps[0].transparency < x.transparency {
        var k :| 0 <= k < |ps[1..]| && ps[1..][k] == x;
        assert ps[k + 1] == x;
      }
      if start <= ps[0].transparency && ps[0].release <= end {
        ConsIncreasing(ps[0], rest);
      }
    }
  }

  /** A point before every point of an increasing sequence extends it increasingly. */
  lemma ConsIncreasing(x: TempPoint, rest: seq<TempPoint>)
    requires Increasing(rest)
    requires forall y :: y in rest ==> x.transparency < y.transparency
    ensures Increasing([x] + rest)
  {
    var r := [x] + rest;
    forall j, k | 0 <= j < k < |r| ensures r[j].transparency < r[k].transparency {
      var y := rest[k - 1];
      assert r[k] == y && y in rest;
      if j > 0 {
        assert r[j] == rest[j - 1];
      }
    }
  }

  /** `get_limits_in_range`: a window whose start follows its end is refused. */
  function GetLimitsInRange(l: TempLimits, start: real, end: real): (r: Result<seq<TempPoint>>)
    ensures r.Err? <==> start > end
    ensures r.Err? ==> r.error == InvalidRange
    ensures r.Ok? ==> forall x :: x in r.value <==> x in l.points && start <= x.transparency && x.release <= end
    ensures r.Ok? && Valid(l) ==> Increasing(r.value)
  {
    if start > end then Err(InvalidRange)
    else
      assert Valid(l) ==> Increasing(Filter(l.points, start, end)) by {
        if Valid(l) {
          FilterIncreasing(l.points, start, end);
        }
      }
      Ok(Filter(l.points, start, end))
  }

  /** A window that covers the whole time range returns every point, unless the range itself
      is reversed (a release time before the first transparency time), which raises. */
  lemma WholeRange(l: TempLimits)
    requires Valid(l) && l.points != []
    ensures l.timeMin.value <= l.timeMax.value ==> GetLimitsInRange(l, l.timeMin.value, l.timeMax.value) == Ok(l.points)
    ensures l.timeMin.value > l.timeMax.value ==> GetLimitsInRange(l, l.timeMin.value, l.timeMax.value) == Err(InvalidRange)
  {
    var ps := l.points;
    MaxReleaseBounds(ps);
    forall k | 0 <= k < |ps| ensures ps[0].transparency <= ps[k].transparency {
      if k > 0 {
        assert ps[0].transparency < ps[k].transparency;
      }
    }
    WholeFilter(ps, l.timeMin.value, l.timeMax.value);
  }

  /** `add_limit_point` does not compare a point's release with its transparency time: a point
      released before it becomes transparent is still accepted, and the whole window keeps it. */
  lemma EarlyReleaseKept()
    ensures var l1 := AddLimitPoint(Empty(), 0.0, 0.0, 5.0).value;
      var l2 := AddLimitPoint(l1, 0.0, 3.0, 1.0);
      && l2.Ok? && l2.value.timeMin == Some(0.0) && l2.value.timeMax == Some(5.0)
      && GetLimitsInRange(l2.value, 0.0, 5.0) == Ok([TempPoint(0.0, 0.0, 5.0), TempPoint(0.0, 3.0, 1.0)])
  {
    var l1 := AddLimitPoint(Empty(), 0.0, 0.0, 5.0).value;
    var l2 := AddLimitPoint(l1, 0.0, 3.0, 1.0).value;
    assert l2.points == [TempPoint(0.0, 0.0, 5.0), TempPoint(0.0, 3.0, 1.0)];
    WholeRange(l2);
  }

  lemma {:induction false} WholeFilter(ps: seq<TempPoint>, start: real, end: real)
    requires forall k :: 0 <= k < |ps| ==> start <= ps[k].transparency && ps[k].release <= end
    ensures Filter(ps, start, end) == ps
  {
    if ps != [] {
      WholeFilter(ps[1..], start, end);
      assert [ps[0]] + ps[1..] == ps;
    }
  }
}
