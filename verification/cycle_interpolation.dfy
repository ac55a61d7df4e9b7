/** The natural cycle count at a controlled phase point that falls between
    points of the physical cycle envelope: the nearest defined points on
    either side are found, and the count is interpolated linearly between
    them by sample position. */
module CycleInterpolation {
  import opened Wrappers
  import opened AudioTypes
  import opened EnvelopeTypes
  import opened EnvelopeTrim

  /** The sentinel value of a cycle point whose count is not yet known. */
  const UNDEFINED_PHASE: real := -999999998.0

  predicate Defined(p: PhysicalEnvelopePoint) {
    p.value != UNDEFINED_PHASE
  }

  /** The cycle envelope is built in time order. */
  predicate SamplesAscend(ps: seq<PhysicalEnvelopePoint>) {
    forall i, j :: 0 <= i <= j < |ps| ==> ps[i].sampleNumber <= ps[j].sampleNumber
  }

  predicate DefinedBefore(ps: seq<PhysicalEnvelopePoint>, i: nat) {
    exists k :: 0 <= k < i && k < |ps| && Defined(ps[k])
  }

  predicate DefinedAfter(ps: seq<PhysicalEnvelopePoint>, i: nat) {
    exists k :: i < k < |ps| && Defined(ps[k])
  }

  /** The backward scan: the nearest defined point before `i`. */
  function ScanBack(ps: seq<PhysicalEnvelopePoint>, i: nat): (j: nat)
    requires i <= |ps| && DefinedBefore(ps, i)
    ensures j < i && Defined(ps[j])
    ensures forall k :: j < k < i ==> !Defined(ps[k])
  {
    if Defined(ps[i - 1]) then i - 1
    else
      assert DefinedBefore(ps, i - 1) by {
        var k :| 0 <= k < i && k < |ps| && Defined(ps[k]);
        assert k < i - 1;
      }
      ScanBack(ps, i - 1)
  }

  /** The forward scan: the nearest defined point after `i`. */
  function ScanForward(ps: seq<PhysicalEnvelopePoint>, i: nat): (j: nat)
    requires DefinedAfter(ps, i)
    ensures i < j < |ps| && Defined(ps[j])
    ensures forall k :: i < k < j ==> !Defined(ps[k])
    decreases |ps| - i
  {
    if Defined(ps[i + 1]) then i + 1
    else
      assert DefinedAfter(ps, i + 1) by {
        var k :| i < k < |ps| && Defined(ps[k]);
        assert k > i + 1;
      }
      ScanForward(ps, i + 1)
  }

  /** How far point `i` lies from the backward point towards the forward
      point, by sample position; `None` when the two share a sample, where
      the source's division is zero by zero. */
  function TimeFraction(ps: seq<PhysicalEnvelopePoint>, i: nat, b: nat, f: nat): (r: Option<real>)
    requires b <= i < f < |ps| && SamplesAscend(ps)
    ensures r.None? <==> ps[b].sampleNumber == ps[f].sampleNumber
    ensures r.Some? ==> 0.0 <= r.value <= 1.0
  {
    var sb, si, sf := ps[b].sampleNumber, ps[i].sampleNumber, ps[f].sampleNumber;
    if sb == sf then None
    else
      var r := (si - sb) as real / (sf - sb) as real;
      assert r <= 1.0 by {
        FractionAtMostOne((si - sb) as real, (sf - sb) as real);
      }
      Some(r)
  }

  /** The natural cycle count at point `i`, interpolated from the backward
      point's count. */
  function Interpolate(ps: seq<PhysicalEnvelopePoint>, i: nat): (r: Option<real>)
    requires i < |ps| && SamplesAscend(ps) && DefinedBefore(ps, i) && DefinedAfter(ps, i)
  {
    var b, f := ScanBack(ps, i), ScanForward(ps, i);
    match TimeFraction(ps, i, b, f)
    case None => None
    case Some(t) => Some(Lerp(ps[b].value, ps[f].value, t))
  }

  /** The interpolated count lies between the counts of its nearest defined
      neighbours, is exact at either neighbour's sample, and is positive
      when the counts are non-negative, rising, and the point is past the
      backward neighbour. */
  lemma InterpolateBetween(ps: seq<PhysicalEnvelopePoint>, i: nat)
    requires i < |ps| && SamplesAscend(ps) && DefinedBefore(ps, i) && DefinedAfter(ps, i)
    ensures var b, f := ScanBack(ps, i), ScanForward(ps, i);
            var r := Interpolate(ps, i);
            && (r.None? <==> ps[b].sampleNumber == ps[f].sampleNumber)
            && (r.Some? ==> Between(r.value, ps[b].value, ps[f].value))
            && (r.Some? && ps[i].sampleNumber == ps[b].sampleNumber ==> r.value == ps[b].value)
            && (r.Some? && ps[i].sampleNumber == ps[f].sampleNumber ==> r.value == ps[f].value)
            && (ps[b].value < ps[f].value && ps[b].sampleNumber < ps[i].sampleNumber ==> r.Some? && r.value > ps[b].value)
            && (0.0 <= ps[b].value < ps[f].value && ps[b].sampleNumber < ps[i].sampleNumber ==> r.Some? && r.value > 0.0)
  {
    var b, f := ScanBack(ps, i), ScanForward(ps, i);
    var t := TimeFraction(ps, i, b, f);
    if t.Some? {
      var vb, vf := ps[b].value, ps[f].value;
      LerpBetween(vb, vf, t.value);
      var sb, si, sf := ps[b].sampleNumber, ps[i].sampleNumber, ps[f].sampleNumber;
      if si == sf {
        DivSelf((sf - sb) as real);
      }
      if vb < vf && sb < si {
        LerpRises(vb, vf, t.value);
      }
    }
  }

  lemma DivSelf(n: real)
    requires n > 0.0
    ensures n / n == 1.0
  {
  }

  /** A positive fraction of a rising stage lies above its start. */
  lemma LerpRises(lo: real, hi: real, f: real)
    requires lo < hi && f > 0.0
    ensures Lerp(lo, hi, f) > lo
  {
    PositiveProduct(hi - lo, f);
  }

  lemma PositiveProduct(x: real, y: real)
    requires x > 0.0 && y > 0.0
    ensures x * y > 0.0
  {
  }

  /** The formula as the source writes it: the stage is added to the forward
      point's count rather than the backward point's. */
  function InterpolateAsWritten(ps: seq<PhysicalEnvelopePoint>, i: nat): (r: Option<real>)
    requires i < |ps| && SamplesAscend(ps) && DefinedBefore(ps, i) && DefinedAfter(ps, i)
    ensures var b, f := ScanBack(ps, i), ScanForward(ps, i);
            r.None? <==> ps[b].sampleNumber == ps[f].sampleNumber
  {
    var b, f := ScanBack(ps, i), ScanForward(ps, i);
    match TimeFraction(ps, i, b, f)
    case None => None
    case Some(t) => Some(ps[f].value + t * (ps[f].value - ps[b].value))
  }

  /** As written, the result is the intended one shifted up by the whole
      rise of the stage, so it never falls below the forward count of a
      rising stage and passes it at any point past the backward one. */
  lemma AsWrittenOvershoots(ps: seq<PhysicalEnvelopePoint>, i: nat)
    requires i < |ps| && SamplesAscend(ps) && DefinedBefore(ps, i) && DefinedAfter(ps, i)
    ensures var b, f := ScanBack(ps, i), ScanForward(ps, i);
            var w, r := InterpolateAsWritten(ps, i), Interpolate(ps, i);
            && (w.Some? <==> r.Some?)
            && (w.Some? ==> w.value == r.value + (ps[f].value - ps[b].value))
            && (w.Some? && ps[b].value <= ps[f].value ==> w.value >= ps[f].value)
            && (ps[b].value < ps[f].value && ps[b].sampleNumber < ps[i].sampleNumber ==> w.Some? && w.value > ps[f].value)
  {
    InterpolateBetween(ps, i);
  }

  /** Counts 1 and 2 at samples 0 and 2, with the controlled point at
      sample 1 between them. */
  const Halfway: seq<PhysicalEnvelopePoint> :=
    [PhysicalEnvelopePoint(0, 1.0), PhysicalEnvelopePoint(1, UNDEFINED_PHASE), PhysicalEnvelopePoint(2, 2.0)]

  /** As written, the halfway point gets 2.5 cycles, past the forward
      count of 2 that the source's own postcondition bounds it by; the
      corrected formula gives 1.5. */
  lemma HalfwayOvershoots()
    ensures SamplesAscend(Halfway) && DefinedBefore(Halfway, 1) && DefinedAfter(Halfway, 1)
    ensures InterpolateAsWritten(Halfway, 1) == Some(2.5)
    ensures Interpolate(Halfway, 1) == Some(1.5)
  {
    assert Defined(Halfway[0]) && !Defined(Halfway[1]) && Defined(Halfway[2]);
    assert ScanBack(Halfway, 1) == 0;
    assert ScanForward(Halfway, 1) == 2;
    assert TimeFraction(Halfway, 1, 0, 2) == Some(0.5);
  }
}
