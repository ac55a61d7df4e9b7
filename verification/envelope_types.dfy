/** The envelope description of a partial (sclang-style levels and relative
    stage times, plus absolute phase coordinates) and its physical form
    (points at sample positions). Each C++ constructor that asserts its
    invariants becomes a constructor function that yields `None` exactly when
    one of those asserts would fail. */
module EnvelopeTypes {
  import opened Wrappers
  import opened AudioTypes

  /** `static_cast` of a double to an integer type: truncation toward zero. */
  function Trunc(x: real): int {
    if x >= 0.0 then x.Floor else -((-x).Floor)
  }

  /** Seconds to whole samples at the fixed 96 kHz rate, truncating. */
  function SecondsToSamples(t: real): int {
    Trunc(t * SAMPLE_RATE as real)
  }

  /** The element-wise conversion applied to an envelope's stage times. */
  function SecondsToSamplesSeq(ts: seq<real>): (r: seq<int>)
    ensures |r| == |ts|
    ensures forall i :: 0 <= i < |ts| ==> r[i] == SecondsToSamples(ts[i])
  {
    if |ts| == 0 then [] else [SecondsToSamples(ts[0])] + SecondsToSamplesSeq(ts[1..])
  }

  /** For a non-negative time the sample count is the whole number of sample
      periods that fit: never negative, never more than the exact product and
      less than one sample short of it. */
  lemma SecondsToSamplesBounds(t: real)
    requires t >= 0.0
    ensures 0 <= SecondsToSamples(t)
    ensures SecondsToSamples(t) as real <= t * 96000.0 < SecondsToSamples(t) as real + 1.0
  {
  }

  /** Truncation never reorders times: a later time has at least as many
      samples. */
  lemma SecondsToSamplesMonotone(s: real, t: real)
    requires 0.0 <= s <= t
    ensures SecondsToSamples(s) <= SecondsToSamples(t)
  {
    assert s * 96000.0 <= t * 96000.0;
  }

  datatype Envelope = Envelope(levels: seq<real>, timesSeconds: seq<real>, timesSamples: seq<int>)

  /** The generic envelope invariant. The sample times are always the
      converted second times, as the constructor computes them itself. */
  predicate ValidEnvelope(e: Envelope) {
    && |e.levels| >= 1
    && |e.timesSeconds| >= |e.levels| - 1
    && (forall i :: 0 <= i < |e.timesSeconds| ==> e.timesSeconds[i] >= 0.0)
    && |e.timesSeconds| == |e.timesSamples|
    && e.timesSamples == SecondsToSamplesSeq(e.timesSeconds)
  }

  /** No stage of a valid envelope lasts a negative number of samples. */
  lemma EnvelopeSampleTimesNonNegative(e: Envelope)
    requires ValidEnvelope(e)
    ensures forall i :: 0 <= i < |e.timesSamples| ==> e.timesSamples[i] >= 0
  {
    forall i | 0 <= i < |e.timesSamples| ensures e.timesSamples[i] >= 0 {
      SecondsToSamplesBounds(e.timesSeconds[i]);
    }
  }

  /** The generic envelope constructor: converts the stage times to samples
      and checks the invariant. */
  function NewEnvelope(levels: seq<real>, times: seq<real>): (r: Option<Envelope>)
    ensures r.Some? ==> ValidEnvelope(r.value)
    ensures r.Some? ==> r.value.levels == levels && r.value.timesSeconds == times
    ensures r.Some? ==> forall i :: 0 <= i < |times| ==> r.value.timesSamples[i] == SecondsToSamples(times[i])
    ensures r.None? <==> (|levels| == 0 || |times| < |levels| - 1 || exists i :: 0 <= i < |times| && times[i] < 0.0)
  {
    var e := Envelope(levels, times, SecondsToSamplesSeq(times));
    if ValidEnvelope(e) then Some(e) else None
  }

  predicate ValidFrequencyEnvelope(e: Envelope) {
    ValidEnvelope(e) && forall i :: 0 <= i < |e.levels| ==> e.levels[i] > 0.0
  }

  predicate ValidAmplitudeEnvelope(e: Envelope) {
    ValidEnvelope(e) && forall i :: 0 <= i < |e.levels| ==> InAmplitudeRange(e.levels[i])
  }

  /** A frequency envelope: the generic checks plus strictly positive levels. */
  function NewFrequencyEnvelope(levels: seq<real>, times: seq<real>): (r: Option<Envelope>)
    ensures r.Some? ==> ValidFrequencyEnvelope(r.value) && r.value.levels == levels && r.value.timesSeconds == times
    ensures r.None? <==> (NewEnvelope(levels, times).None? || exists i :: 0 <= i < |levels| && levels[i] <= 0.0)
  {
    var e :- NewEnvelope(levels, times);
    if forall i :: 0 <= i < |levels| ==> levels[i] > 0.0 then Some(e) else None
  }

  /** An amplitude envelope: the generic checks plus levels in [-1, 1]. */
  function NewAmplitudeEnvelope(levels: seq<real>, times: seq<real>): (r: Option<Envelope>)
    ensures r.Some? ==> ValidAmplitudeEnvelope(r.value) && r.value.levels == levels && r.value.timesSeconds == times
    ensures r.None? <==> (NewEnvelope(levels, times).None? || exists i :: 0 <= i < |levels| && !InAmplitudeRange(levels[i]))
  {
    var e :- NewEnvelope(levels, times);
    if forall i :: 0 <= i < |levels| ==> InAmplitudeRange(levels[i]) then Some(e) else None
  }

  /** A point where the partial must reach a given phase, or (when `natural`)
      simply keep its natural phase. Times are absolute, not relative. */
  datatype PhaseCoordinate = PhaseCoordinate(timeSeconds: real, timeSamples: int, value: real, natural: bool)

  predicate ValidPhaseCoordinate(c: PhaseCoordinate) {
    && c.timeSamples == SecondsToSamples(c.timeSeconds)
    && (if c.natural then c.timeSeconds > 0.0 && c.value == NATURAL_PHASE
        else c.timeSeconds >= 0.0 && InPhaseRange(c.value))
  }

  /** The explicit-phase constructor. */
  function ExplicitPhaseCoordinate(time: real, value: real): (r: Option<PhaseCoordinate>)
    ensures r.Some? <==> time >= 0.0 && 0.0 <= value <= TWO_PI
    ensures r.Some? ==> ValidPhaseCoordinate(r.value) && !r.value.natural
    ensures r.Some? ==> r.value.timeSeconds == time && r.value.value == value
  {
    if time >= 0.0 && InPhaseRange(value) then
      Some(PhaseCoordinate(time, SecondsToSamples(time), value, false))
    else None
  }

  /** The natural-phase constructor: never allowed at time zero. */
  function NaturalPhaseCoordinate(time: real): (r: Option<PhaseCoordinate>)
    ensures r.Some? <==> time > 0.0
    ensures r.Some? ==> ValidPhaseCoordinate(r.value) && r.value.natural
    ensures r.Some? ==> r.value.timeSeconds == time && r.value.value == NATURAL_PHASE
  {
    if time > 0.0 then Some(PhaseCoordinate(time, SecondsToSamples(time), NATURAL_PHASE, true)) else None
  }

  /** The phase-coordinate list invariant: at least a start and an end, the
      start explicit and at time zero, times strictly ascending. */
  predicate ValidPhaseCoordinates(cs: seq<PhaseCoordinate>) {
    && |cs| >= 2
    && (forall i :: 0 <= i < |cs| ==> ValidPhaseCoordinate(cs[i]))
    && cs[0].timeSamples == 0
    && cs[0].timeSeconds == 0.0
    && !cs[0].natural
    && forall i :: 1 <= i < |cs| ==> cs[i - 1].timeSeconds < cs[i].timeSeconds
  }

  /** The time in samples at which the partial ends: its last coordinate. */
  function EndTimeSamples(cs: seq<PhaseCoordinate>): int
    requires |cs| > 0
  {
    cs[|cs| - 1].timeSamples
  }

  /** Strict ascent in seconds gives a (non-strict) ascent in samples: two
      coordinates closer than one sample period share a sample position. */
  lemma {:induction false} PhaseCoordinateSamplesAscend(cs: seq<PhaseCoordinate>, i: nat, j: nat)
    requires ValidPhaseCoordinates(cs)
    requires i <= j < |cs|
    ensures 0 <= cs[i].timeSamples <= cs[j].timeSamples
  {
    if i < j {
      PhaseCoordinateSamplesAscend(cs, i, j - 1);
      assert cs[j - 1].timeSeconds < cs[j].timeSeconds;
      assert ValidPhaseCoordinate(cs[j - 1]) && ValidPhaseCoordinate(cs[j]);
      SecondsToSamplesMonotone(cs[j - 1].timeSeconds, cs[j].timeSeconds);
    } else {
      assert ValidPhaseCoordinate(cs[i]);
      SecondsToSamplesBounds(cs[i].timeSeconds);
    }
  }

  /** The last coordinate bounds every coordinate, so it is the end of the
      partial. */
  lemma EndTimeIsLatest(cs: seq<PhaseCoordinate>)
    requires ValidPhaseCoordinates(cs)
    ensures forall i :: 0 <= i < |cs| ==> 0 <= cs[i].timeSamples <= EndTimeSamples(cs)
  {
    forall i | 0 <= i < |cs|
      ensures 0 <= cs[i].timeSamples <= EndTimeSamples(cs)
    {
      PhaseCoordinateSamplesAscend(cs, i, |cs| - 1);
    }
  }

  /** A point of a physical envelope. */
  datatype PhysicalEnvelopePoint = PhysicalEnvelopePoint(sampleNumber: nat, value: real)

  /** A physical envelope always has a start and an end point. */
  predicate ValidPhysicalEnvelope(coords: seq<PhysicalEnvelopePoint>) {
    |coords| > 1
  }

  datatype PhysicalPartialEnvelopes = PhysicalPartialEnvelopes(
    amplitude: seq<PhysicalEnvelopePoint>,
    cycle: seq<PhysicalEnvelopePoint>,
    startSample: nat,
    endSample: nat)

  const UINT32_MODULUS: nat := 0x1_0000_0000

  /** Pairs the two physical envelopes of a partial. The end sample is the
      uint32 sum of the start sample and the last cycle point's position. */
  function NewPhysicalPartialEnvelopes(amplitude: seq<PhysicalEnvelopePoint>, cycle: seq<PhysicalEnvelopePoint>,
                                       startSample: nat): (r: Option<PhysicalPartialEnvelopes>)
    requires ValidPhysicalEnvelope(amplitude) && ValidPhysicalEnvelope(cycle)
    ensures r.Some? <==> (amplitude[0].sampleNumber == cycle[0].sampleNumber
                          && amplitude[|amplitude| - 1].sampleNumber == cycle[|cycle| - 1].sampleNumber)
    ensures r.Some? ==> r.value.amplitude == amplitude && r.value.cycle == cycle && r.value.startSample == startSample
    ensures r.Some? && startSample + cycle[|cycle| - 1].sampleNumber < UINT32_MODULUS ==>
              r.value.endSample - r.value.startSample == cycle[|cycle| - 1].sampleNumber
    ensures r.Some? ==> r.value.endSample < UINT32_MODULUS
  {
    if amplitude[0].sampleNumber == cycle[0].sampleNumber
       && amplitude[|amplitude| - 1].sampleNumber == cycle[|cycle| - 1].sampleNumber
    then
      Some(PhysicalPartialEnvelopes(amplitude, cycle, startSample,
                                    (startSample + cycle[|cycle| - 1].sampleNumber) % UINT32_MODULUS))
    else None
  }

  /** The complete envelope description of one partial. The three parts
      check their own invariants; the aggregate adds none. */
  datatype PartialEnvelopes = PartialEnvelopes(amplitude: Envelope, frequency: Envelope,
                                               phases: seq<PhaseCoordinate>)

  predicate ValidPartialEnvelopes(pe: PartialEnvelopes) {
    && ValidAmplitudeEnvelope(pe.amplitude)
    && ValidFrequencyEnvelope(pe.frequency)
    && ValidPhaseCoordinates(pe.phases)
  }
}
