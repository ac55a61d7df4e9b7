/** Trimming of an sclang-style envelope (levels and the stage times between
    them) to the end time of a partial, and the amplitude envelope's
    physical points. Times are exact reals: the model says nothing about
    floating-point rounding. */
module EnvelopeTrim {
  import opened AudioTypes
  import opened EnvelopeTypes

  /** An envelope as lists of levels and of the stage times between them. */
  datatype Stages = Stages(levels: seq<real>, times: seq<real>)

  /** One time per gap between two levels, and at least one level. */
  predicate Aligned(s: Stages) {
    |s.levels| >= 1 && |s.times| + 1 == |s.levels|
  }

  /** The total length of a list of stages, summed from the back. */
  function Sum(ts: seq<real>): real {
    if |ts| == 0 then 0.0 else Sum(ts[..|ts| - 1]) + ts[|ts| - 1]
  }

  function Last(s: seq<real>): real
    requires |s| > 0
  {
    s[|s| - 1]
  }

  function DropLast(s: seq<real>): (r: seq<real>)
    requires |s| > 0
    ensures |r| == |s| - 1 && r == s[..|s| - 1]
  {
    s[..|s| - 1]
  }

  predicate NonNegative(ts: seq<real>) {
    forall i :: 0 <= i < |ts| ==> ts[i] >= 0.0
  }

  predicate IsPrefix(a: seq<real>, b: seq<real>) {
    |a| <= |b| && a == b[..|a|]
  }

  /** Trailing times with no gap to fill are dropped, then trailing levels
      with no time to reach them. What is left is a prefix of each list. */
  function Normalise(levels: seq<real>, times: seq<real>): (r: Stages)
    requires |levels| >= 1
    ensures Aligned(r)
    ensures IsPrefix(r.levels, levels) && IsPrefix(r.times, times)
    ensures |r.times| == if |times| < |levels| then |times| else |levels| - 1
  {
    var t := if |times| >= |levels| then times[..|levels| - 1] else times;
    var l := if |levels| > |t| + 1 then levels[..|t| + 1] else levels;
    Stages(l, t)
  }

  /** Whole trailing stages are removed while the envelope would still reach
      past the end time without them. The stage that crosses the end time
      is the last one left. */
  function Truncate(s: Stages, end: real): (r: Stages)
    requires Aligned(s) && 0.0 <= end < Sum(s.times)
    ensures Aligned(r) && |r.times| >= 1
    ensures IsPrefix(r.levels, s.levels) && IsPrefix(r.times, s.times)
    ensures Sum(r.times) - Last(r.times) <= end < Sum(r.times)
    decreases |s.times|
  {
    if Sum(s.times) - Last(s.times) > end then
      Truncate(Stages(DropLast(s.levels), DropLast(s.times)), end)
    else s
  }

  /** The crossing stage is cut at the end time, and its level is
      interpolated linearly at the cut. */
  function Shorten(s: Stages, end: real): (r: Stages)
    requires Aligned(s) && |s.times| >= 1 && Sum(s.times) - Last(s.times) <= end < Sum(s.times)
  {
    var before := Sum(s.times) - Last(s.times);
    var lastTime := end - before;
    var levelBack := Last(s.levels);
    var levelBefore := s.levels[|s.levels| - 2];
    var level := Lerp(levelBefore, levelBack, lastTime / Last(s.times));
    Stages(DropLast(s.levels) + [level], DropLast(s.times) + [lastTime])
  }

  /** Cutting keeps every stage but the last, shortens the last to end
      exactly at the end time, and puts its level between the two levels of
      the stage it cut. */
  lemma ShortenCuts(s: Stages, end: real)
    requires Aligned(s) && |s.times| >= 1 && Sum(s.times) - Last(s.times) <= end < Sum(s.times)
    ensures var r := Shorten(s, end);
            var lo := s.levels[|s.levels| - 2];
            var hi := Last(s.levels);
            && Aligned(r)
            && Sum(r.times) == end
            && DropLast(r.times) == DropLast(s.times) && DropLast(r.levels) == DropLast(s.levels)
            && 0.0 <= Last(r.times) < Last(s.times)
            && Between(Last(r.levels), lo, hi)
  {
    var r := Shorten(s, end);
    var n := Last(s.times);
    var a := end - (Sum(s.times) - n);
    FractionBelowOne(a, n);
    LerpBetween(s.levels[|s.levels| - 2], Last(s.levels), a / n);
    assert r.times[..|r.times| - 1] == DropLast(s.times);
  }

  lemma FractionBelowOne(a: real, n: real)
    requires 0.0 <= a < n
    ensures 0.0 <= a / n < 1.0
  {
    assert a / n * n == a;
  }

  lemma NonNegativeProduct(x: real, y: real)
    requires x >= 0.0 && y >= 0.0
    ensures x * y >= 0.0
  {
  }

  /** The level a fraction `f` of the way from `lo` to `hi`. */
  function Lerp(lo: real, hi: real, f: real): real {
    lo + (hi - lo) * f
  }

  /** Linear interpolation at a fraction in [0, 1] stays between its two
      end levels. */
  lemma LerpBetween(lo: real, hi: real, f: real)
    requires 0.0 <= f <= 1.0
    ensures Between(Lerp(lo, hi, f), lo, hi)
  {
    var x := Lerp(lo, hi, f);
    assert x - lo == (hi - lo) * f;
    assert hi - x == (hi - lo) * (1.0 - f);
    if lo <= hi {
      NonNegativeProduct(hi - lo, f);
      NonNegativeProduct(hi - lo, 1.0 - f);
    } else {
      NonNegativeProduct(lo - hi, f);
      NonNegativeProduct(lo - hi, 1.0 - f);
      assert lo - x == (lo - hi) * f;
      assert x - hi == (lo - hi) * (1.0 - f);
    }
  }

  /** `trimPartialEnvelope`: normalise, then pad with a held level when the
      stages end too early, or truncate and cut when they end too late. */
  function Trim(levels: seq<real>, times: seq<real>, end: real): (r: Stages)
    requires |levels| >= 1 && end >= 0.0
    ensures Aligned(r)
    ensures Sum(r.times) == end
    ensures end > 0.0 ==> |r.levels| >= 2
    ensures NonNegative(times) ==> NonNegative(r.times)
  {
    var s := Normalise(levels, times);
    var total := Sum(s.times);
    if total == end then
      assert NonNegative(times) ==> NonNegative(s.times) by {
        if NonNegative(times) {
          forall i | 0 <= i < |s.times| ensures s.times[i] >= 0.0 {
            assert s.times[i] == times[i];
          }
        }
      }
      s
    else if total < end then
      var r := Stages(s.levels + [Last(s.levels)], s.times + [end - total]);
      assert DropLast(r.times) == s.times;
      assert NonNegative(times) ==> NonNegative(r.times) by {
        if NonNegative(times) {
          forall i | 0 <= i < |r.times| ensures r.times[i] >= 0.0 {
            if i < |s.times| {
              assert r.times[i] == times[i];
            }
          }
        }
      }
      r
    else
      var t := Truncate(s, end);
      ShortenCuts(t, end);
      var r := Shorten(t, end);
      assert NonNegative(times) ==> NonNegative(r.times) by {
        if NonNegative(times) {
          forall i | 0 <= i < |r.times| ensures r.times[i] >= 0.0 {
            if i < |r.times| - 1 {
              assert r.times[i] == t.times[i] == times[i];
            }
          }
        }
      }
      r
  }

  /** An envelope that already fits is left as it is: trimming twice is
      trimming once. */
  lemma TrimIdempotent(levels: seq<real>, times: seq<real>, end: real)
    requires |levels| >= 1 && end >= 0.0
    ensures var r := Trim(levels, times, end);
            Trim(r.levels, r.times, end) == r
  {
    var r := Trim(levels, times, end);
    assert r.levels[..|r.levels|] == r.levels && r.times[..|r.times|] == r.times;
    assert Normalise(r.levels, r.times) == r;
  }

  /** A fitting envelope is untouched; a short one gains one stage holding
      its last level; a long one keeps a prefix of its stages with only the
      last one cut. */
  lemma TrimShape(levels: seq<real>, times: seq<real>, end: real)
    requires |levels| >= 1 && end >= 0.0
    ensures var s := Normalise(levels, times);
            var r := Trim(levels, times, end);
            && (Sum(s.times) == end ==> r == s)
            && (Sum(s.times) < end ==> DropLast(r.levels) == s.levels && DropLast(r.times) == s.times
                                       && Last(r.levels) == Last(s.levels))
            && (Sum(s.times) > end ==> IsPrefix(DropLast(r.levels), s.levels)
                                       && IsPrefix(DropLast(r.times), s.times)
                                       && Last(r.times) < s.times[|r.times| - 1])
  {
    var s := Normalise(levels, times);
    if Sum(s.times) > end {
      var t := Truncate(s, end);
      ShortenCuts(t, end);
      var r := Shorten(t, end);
      assert DropLast(t.levels) == s.levels[..|t.levels| - 1];
      assert DropLast(t.times) == s.times[..|t.times| - 1];
      assert Last(t.times) == s.times[|t.times| - 1];
    }
  }

  /** The two popping loops of `trimPartialEnvelope`. */
  method DropRedundant(levels0: seq<real>, times0: seq<real>) returns (levels: seq<real>, times: seq<real>)
    requires |levels0| >= 1
    ensures Stages(levels, times) == Normalise(levels0, times0)
  {
    levels, times := levels0, times0;
    while |times| >= |levels|
      invariant levels == levels0 && IsPrefix(times, times0)
      invariant |times0| >= |levels0| ==> |times| >= |levels0| - 1
      invariant |times0| < |levels0| ==> times == times0
      decreases |times|
    {
      times := times[..|times| - 1];
    }
    assert times == if |times0| >= |levels0| then times0[..|levels0| - 1] else times0;
    while |levels| > |times| + 1
      invariant |levels| >= |times| + 1 && IsPrefix(levels, levels0)
      decreases |levels|
    {
      levels := levels[..|levels| - 1];
    }
  }

  /** `std::accumulate` over the stage times, front to back. */
  method SumTimes(times: seq<real>) returns (total: real)
    ensures total == Sum(times)
  {
    total := 0.0;
    var k := 0;
    while k < |times|
      invariant 0 <= k <= |times| && total == Sum(times[..k])
    {
      assert times[..k + 1][..k] == times[..k];
      total := total + times[k];
      k := k + 1;
    }
    assert times[..k] == times;
  }

  /** The truncating branch: pop whole stages while the rest still reaches
      past the end, then cut the last stage and interpolate its level. */
  method CutToEnd(levels0: seq<real>, times0: seq<real>, total0: real, end: real)
    returns (levels: seq<real>, times: seq<real>)
    requires Aligned(Stages(levels0, times0)) && total0 == Sum(times0) && 0.0 <= end < total0
    ensures Stages(levels, times) == Shorten(Truncate(Stages(levels0, times0), end), end)
  {
    levels, times := levels0, times0;
    var total := total0;
    while total - times[|times| - 1] > end
      invariant Aligned(Stages(levels, times)) && total == Sum(times) && total > end
      invariant Truncate(Stages(levels, times), end) == Truncate(Stages(levels0, times0), end)
      decreases |times|
    {
      total := total - times[|times| - 1];
      times := times[..|times| - 1];
      levels := levels[..|levels| - 1];
    }
    ghost var cut := Stages(levels, times);
    assert Truncate(cut, end) == cut;
    var timeEnvelopeBeforeEnd := total - times[|times| - 1];
    var timeLastEnvelopeSegment := end - timeEnvelopeBeforeEnd;
    var levelBack := levels[|levels| - 1];
    var levelOneBeforeBack := levels[|levels| - 2];
    var interpolatedLevel := Lerp(levelOneBeforeBack, levelBack, timeLastEnvelopeSegment / times[|times| - 1]);
    levels := levels[..|levels| - 1] + [interpolatedLevel];
    times := times[..|times| - 1] + [timeLastEnvelopeSegment];
    assert timeEnvelopeBeforeEnd == Sum(cut.times) - Last(cut.times);
    assert levelBack == Last(cut.levels) && levelOneBeforeBack == cut.levels[|cut.levels| - 2];
    assert Stages(levels, times) == Shorten(cut, end);
  }

  /** `trimPartialEnvelope` as the source runs it. */
  method TrimPartialEnvelope(levels0: seq<real>, times0: seq<real>, end: real)
    returns (levels: seq<real>, times: seq<real>)
    requires |levels0| >= 1 && end >= 0.0
    ensures Stages(levels, times) == Trim(levels0, times0, end)
    ensures |levels| >= 1 && |times| + 1 == |levels|
  {
    levels, times := DropRedundant(levels0, times0);
    var total := SumTimes(times);
    if total != end {
      if total < end {
        times := times + [end - total];
        levels := levels + [levels[|levels| - 1]];
      } else {
        levels, times := CutToEnd(levels, times, total, end);
      }
    }
  }

  /** The running total of the first `n` stage times, where the total stops
      growing once the times run out. */
  function Elapsed(times: seq<real>, n: nat): real {
    Sum(times[..if n < |times| then n else |times|])
  }

  /** With no negative stage, the running total never decreases. */
  lemma {:induction false} ElapsedGrows(times: seq<real>, m: nat, n: nat)
    requires NonNegative(times) && m <= n
    ensures 0.0 <= Elapsed(times, m) <= Elapsed(times, n)
  {
    if n == 0 {
      assert times[..0] == [];
    } else if m == n {
      ElapsedGrows(times, 0, n);
    } else {
      ElapsedGrows(times, m, n - 1);
      if n <= |times| {
        assert times[..n][..n - 1] == times[..n - 1];
      } else {
        assert Elapsed(times, n) == Elapsed(times, n - 1);
      }
    }
  }

  /** `populateAmplitudeEnvelope`: one point per level, placed at the
      running total of the stage times before it, in samples. */
  function AmplitudeEnvelope(levels: seq<real>, times: seq<real>): (r: seq<PhysicalEnvelopePoint>)
    requires NonNegative(times)
    ensures |r| == |levels|
    ensures forall i :: 0 <= i < |levels| ==> r[i].value == levels[i]
  {
    seq(|levels|, i requires 0 <= i < |levels| =>
          ElapsedGrows(times, 0, i);
          SecondsToSamplesBounds(Elapsed(times, i));
          PhysicalEnvelopePoint(SecondsToSamples(Elapsed(times, i)) as nat, levels[i]))
  }

  /** The points of the amplitude envelope are in time order, start at
      sample 0, and a trimmed envelope's last point sits at the end time. */
  lemma AmplitudePointsOrdered(levels: seq<real>, times: seq<real>, i: nat, j: nat)
    requires NonNegative(times) && i <= j < |levels|
    ensures var r := AmplitudeEnvelope(levels, times);
            r[0].sampleNumber == 0 && r[i].sampleNumber <= r[j].sampleNumber
  {
    ElapsedGrows(times, i, j);
    SecondsToSamplesMonotone(Elapsed(times, i), Elapsed(times, j));
    assert times[..0] == [];
  }

  /** After trimming to a positive end the amplitude envelope has at least
      two points, and its last point sits at the end time in samples. */
  lemma TrimmedAmplitudeEndsAtEnd(levels: seq<real>, times: seq<real>, end: real)
    requires |levels| >= 1 && end >= 0.0 && NonNegative(times)
    ensures var t := Trim(levels, times, end);
            var r := AmplitudeEnvelope(t.levels, t.times);
            && (end > 0.0 ==> |r| >= 2)
            && r[|r| - 1].sampleNumber == SecondsToSamples(end)
  {
    var t := Trim(levels, times, end);
    assert t.times[..|t.times|] == t.times;
  }

  /** The loop of `populateAmplitudeEnvelope`, adding each stage time after
      its point while times remain. */
  method PopulateAmplitudeEnvelope(levels: seq<real>, times: seq<real>) returns (points: seq<PhysicalEnvelopePoint>)
    requires NonNegative(times)
    ensures points == AmplitudeEnvelope(levels, times)
  {
    points := [];
    var accumulator := 0.0;
    var i := 0;
    while i < |levels|
      invariant 0 <= i <= |levels| && accumulator == Elapsed(times, i)
      invariant points == AmplitudeEnvelope(levels, times)[..i]
    {
      ElapsedGrows(times, 0, i);
      SecondsToSamplesBounds(accumulator);
      points := points + [PhysicalEnvelopePoint(SecondsToSamples(accumulator) as nat, levels[i])];
      if i < |times| {
        assert times[..i + 1][..i] == times[..i];
        accumulator := accumulator + times[i];
      }
      i := i + 1;
    }
  }
}
