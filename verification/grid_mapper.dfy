/** `mapEnvelopesToPaxels` as a whole: the boundary set of the envelopes and
    phase coordinates, pass 1 over it, the phase correction of pass 2, and
    the placement and grouping of pass 3. `naturalPhase` and `phaseMod` are
    parameters. */
module GridMapper {
  import opened Wrappers
  import opened AudioTypes
  import opened EnvelopeTypes
  import opened PaxelBuilder
  import opened GridBoundaries
  import opened StageFill
  import opened EnvelopeSweep
  import opened PhaseCorrection
  import opened PaxelLayout
  import opened CellArith

  /** Sample times known to be non-negative, as counts. */
  function SampleCounts(ts: seq<int>): (r: seq<nat>)
    requires forall i :: 0 <= i < |ts| ==> ts[i] >= 0
    ensures |r| == |ts| && forall i :: 0 <= i < |ts| ==> r[i] == ts[i]
  {
    seq(|ts|, i requires 0 <= i < |ts| => ts[i] as nat)
  }

  /** An envelope as pass 1 reads it: its levels and its stage times in
      samples. */
  function Input(e: Envelope): (r: EnvelopeInput)
    requires ValidEnvelope(e)
    ensures r.levels == e.levels && |r.times| == |e.timesSamples|
    ensures forall i :: 0 <= i < |r.times| ==> r.times[i] == e.timesSamples[i]
  {
    EnvelopeSampleTimesNonNegative(e);
    EnvelopeInput(e.levels, SampleCounts(e.timesSamples))
  }

  /** The phase coordinates as pass 2 reads them. */
  function Coordinates(cs: seq<PhaseCoordinate>): (r: seq<Coordinate>)
    requires NonNegativeTimes(cs)
    ensures |r| == |cs|
    ensures forall i :: 0 <= i < |cs| ==> r[i] == Coordinate(cs[i].timeSamples, cs[i].value, cs[i].natural)
  {
    seq(|cs|, i requires 0 <= i < |cs| => Coordinate(cs[i].timeSamples, cs[i].value, cs[i].natural))
  }

  /** The start phases the boundary set holds before pass 1. */
  function Presets(es: seq<Entry>): (r: seq<real>)
    ensures |r| == |es| && forall i :: 0 <= i < |es| ==> r[i] == es[i].paxel.startPhase
  {
    seq(|es|, i requires 0 <= i < |es| => es[i].paxel.startPhase)
  }

  /** Valid phase coordinates have non-negative sample times. */
  lemma CoordinateTimesNonNegative(cs: seq<PhaseCoordinate>)
    requires ValidPhaseCoordinates(cs)
    ensures NonNegativeTimes(cs)
  {
    forall i | 0 <= i < |cs| ensures cs[i].timeSamples >= 0 {
      PhaseCoordinateSamplesAscend(cs, 0, i);
    }
  }

  /** The pass that failed, and why. */
  datatype MapError = SweepFailed(sweep: SweepError) | CorrectionFailed(correction: CorrectionError)
                    | LayoutFailed(layout: LayoutError)

  /** The mapper under either amplitude schedule. The source asserts a
      non-empty cell and an offset inside it; the envelopes check their own
      invariants when built. */
  function MapEnvelopesWith(pe: PartialEnvelopes, g: nat, offset: nat, s: Schedule, np: PhaseFn, pm: PhaseModFn)
    : (r: Result<Partial, MapError>)
    requires ValidPartialEnvelopes(pe) && 0 < g && offset < g
    ensures r.Success? ==> ValidPartial(r.value)
  {
    CoordinateTimesNonNegative(pe.phases);
    var b := BuildBoundaries(pe.phases, Input(pe.amplitude).times, Input(pe.frequency).times, g, offset);
    var pos := PositionsOf(b.entries);
    var durs := Durations(pos, g);
    match Sweep(pos, durs, Presets(b.entries), Input(pe.amplitude), Input(pe.frequency), b.endTime, s, np)
    case Failure(e) => Failure(SweepFailed(e))
    case Success(p1) => MapAfterSweep(p1, pe, pos, durs, g, offset, b.endTime, pm)
  }

  /** Passes 2 and 3, after a successful pass 1. */
  function MapAfterSweep(p1: Pass1, pe: PartialEnvelopes, pos: seq<nat>, durs: seq<nat>, g: nat, offset: nat,
                         endTime: nat, pm: PhaseModFn): (r: Result<Partial, MapError>)
    requires Pass1Sized(p1, |pos|) && |durs| == |pos| && Increasing(pos)
    requires NonNegativeTimes(pe.phases) && 0 < g && offset < g
    ensures r.Success? ==> ValidPartial(r.value)
  {
    match CorrectPhases(p1.phase, pos, durs, Coordinates(pe.phases), pm)
    case Failure(e) => Failure(CorrectionFailed(e))
    case Success(phase) =>
      match Layout(pos, Columns(p1.amp, p1.freq, phase), g, offset, endTime)
      case Failure(e) => Failure(LayoutFailed(e))
      case Success(partial) => Success(partial)
  }

  /** The mapper as written: the amplitude envelope waits for the time of
      the stage it has just completed. */
  function MapEnvelopes(pe: PartialEnvelopes, g: nat, offset: nat, np: PhaseFn, pm: PhaseModFn)
    : (r: Result<Partial, MapError>)
    requires ValidPartialEnvelopes(pe) && 0 < g && offset < g
    ensures r.Success? ==> ValidPartial(r.value)
  {
    MapEnvelopesWith(pe, g, offset, SameTime, np, pm)
  }

  /** The mapper with both envelopes waiting for the next stage's time. */
  function MapEnvelopesCorrected(pe: PartialEnvelopes, g: nat, offset: nat, np: PhaseFn, pm: PhaseModFn)
    : (r: Result<Partial, MapError>)
    requires ValidPartialEnvelopes(pe) && 0 < g && offset < g
    ensures r.Success? ==> ValidPartial(r.value)
  {
    MapEnvelopesWith(pe, g, offset, NextTime, np, pm)
  }

  /** The two mappers give the same partial, or fail alike, whenever the
      amplitude envelope has at most one stage: the schedule fault needs a
      second amplitude stage to show. */
  lemma MapEnvelopesAgree(pe: PartialEnvelopes, g: nat, offset: nat, np: PhaseFn, pm: PhaseModFn)
    requires ValidPartialEnvelopes(pe) && 0 < g && offset < g
    requires |pe.amplitude.timesSamples| <= 1
    ensures MapEnvelopes(pe, g, offset, np, pm) == MapEnvelopesCorrected(pe, g, offset, np, pm)
  {
    CoordinateTimesNonNegative(pe.phases);
    var b := BuildBoundaries(pe.phases, Input(pe.amplitude).times, Input(pe.frequency).times, g, offset);
    var pos := PositionsOf(b.entries);
    var durs := Durations(pos, g);
    SweepScheduleFree(pos, durs, Presets(b.entries), Input(pe.amplitude), Input(pe.frequency), b.endTime, np);
  }

  /** The envelopes of the one-second example: a constant amplitude of 0.4,
      a constant 1 kHz, and phase 0 at the start and after one second. */
  const OneSecond: PartialEnvelopes :=
    PartialEnvelopes(Envelope([0.4], [], []), Envelope([1000.0], [], []),
                     [PhaseCoordinate(0.0, 0, 0.0, false), PhaseCoordinate(1.0, 96000, 0.0, false)])

  /** A builder holding only a preset start phase of 0. */
  const Preset0: Builder := Fresh.(startPhase := 0.0)

  /** Its boundary set is the two phase coordinates: the grid line at 0
      is already there and neither envelope has a time. */
  lemma OneSecondBoundaries()
    ensures NonNegativeTimes(OneSecond.phases)
    ensures var b := BuildBoundaries(OneSecond.phases, [], [], 96000, 0);
            b.endTime == 96000 && b.entries == [Entry(0, Preset0), Entry(96000, Preset0)]
  {
    var cs := OneSecond.phases;
    assert PhaseEntries(cs) == [Entry(0, Preset0), Entry(96000, Preset0)];
    var e0, e1 := Entry(0, Preset0), Entry(96000, Preset0);
    assert InsertEntry([], e0) == [e0];
    assert [e0, e1][1..] == [e1];
    assert InsertAll([], [e0, e1]) == InsertAll([e0], [e1]);
    assert InsertEntry([e0], e1) == [e0] + InsertEntry([e0][1..], e1) == [e0, e1];
    assert InsertAll([e0], [e1]) == InsertAll([e0, e1], []);
    var ph := InsertAll([], PhaseEntries(cs));
    assert ph == [e0, e1];
    assert GridSeq(0, 96000, 96000) == [0];
    assert FreshEntries([0]) == [Entry(0, Fresh)];
    assert InsertEntry(ph, Entry(0, Fresh)) == ph;
    assert InsertAll(ph, FreshEntries(GridSeq(0, 96000, 96000))) == ph;
  }

  /** Pass 1 holds both levels over both entries and leaves the preset
      start phases alone. */
  lemma OneSecondSweep(s: Schedule, np: PhaseFn)
    ensures var pos := [0, 96000];
            var r := Sweep(pos, Durations(pos, 96000), [0.0, 0.0], EnvelopeInput([0.4], []),
                           EnvelopeInput([1000.0], []), 96000, s, np);
            && r.Success?
            && r.value.amp == Lane([0.4, 0.4], [0.4, 0.4])
            && r.value.freq == Lane([1000.0, 1000.0], [1000.0, 1000.0])
            && r.value.phase.start == [0.0, 0.0]
  {
    var pos := [0, 96000];
    assert Durations(pos, 96000) == [96000, 96000];
  }

  /** Pass 2 sets the end phase of entry 0 to the phase the second
      coordinate asks for. */
  lemma OneSecondCorrection(l: Lane, pm: PhaseModFn)
    requires Sized(l, 2) && l.start == [0.0, 0.0]
    ensures var r := CorrectPhases(l, [0, 96000], [96000, 96000],
                                   [Coordinate(0, 0.0, false), Coordinate(96000, 0.0, false)], pm);
            r.Success? && r.value.start == [0.0, 0.0] && r.value.end[0] == 0.0
  {
    assert Find([0, 96000], 96000) == Some(1);
  }

  /** Pass 3 places entry 0 over the whole cell and closes at the end time. */
  lemma OneSecondLayout(ph: Lane)
    requires Sized(ph, 2) && ph.start == [0.0, 0.0] && ph.end[0] == 0.0
    ensures var v := Columns(Lane([0.4, 0.4], [0.4, 0.4]), Lane([1000.0, 1000.0], [1000.0, 1000.0]), ph);
            var r := Layout([0, 96000], v, 96000, 0, 96000);
            r == Success(Partial([MultiPaxel([Paxel(1000.0, 1000.0, 0.4, 0.4, 0.0, 0.0, 96000, 0, 95999)])]))
  {
    var pos := [0, 96000];
    var v := Columns(Lane([0.4, 0.4], [0.4, 0.4]), Lane([1000.0, 1000.0], [1000.0, 1000.0]), ph);
    assert Durations(pos, 96000) == [96000, 96000];
    assert Remainder(0, 96000) == 0;
    var p := Paxel(1000.0, 1000.0, 0.4, 0.4, 0.0, 0.0, 96000, 0, 95999);
    assert PlacedBuilder(pos, v, 96000, 0, 0) == Builder(1000.0, 1000.0, 0.4, 0.4, 0.0, 0.0, 96000, 0, 95999);
    assert Finalize(PlacedBuilder(pos, v, 96000, 0, 0)) == Success(p);
    assert ValidMultiPaxel(MultiPaxel([p]));
    assert [] + [p] == [p] && [] + [MultiPaxel([p])] == [MultiPaxel([p])];
    LayoutFromCloses(pos, v, 96000, 0, 96000, 0, 96000, [], [], p);
    assert LayoutFrom(pos, v, 96000, 0, 96000, 0, 96000, [], []) == Success([MultiPaxel([p])]);
    assert ValidPartial(Partial([MultiPaxel([p])]));
  }

  /** The inputs of the passes for the one-second example. */
  lemma OneSecondInputs()
    ensures ValidPartialEnvelopes(OneSecond) && NonNegativeTimes(OneSecond.phases)
    ensures Input(OneSecond.amplitude) == EnvelopeInput([0.4], [])
    ensures Input(OneSecond.frequency) == EnvelopeInput([1000.0], [])
    ensures var b := BuildBoundaries(OneSecond.phases, [], [], 96000, 0);
            && b.endTime == 96000 && PositionsOf(b.entries) == [0, 96000] && Presets(b.entries) == [0.0, 0.0]
  {
    OneSecondBoundaries();
    CoordinateTimesNonNegative(OneSecond.phases);
    var b := BuildBoundaries(OneSecond.phases, [], [], 96000, 0);
    assert PositionsOf(b.entries) == [0, 96000];
  }

  /** The durations and coordinates of the one-second example. */
  lemma OneSecondSpans()
    ensures Durations([0, 96000], 96000) == [96000, 96000]
    ensures NonNegativeTimes(OneSecond.phases)
    ensures Coordinates(OneSecond.phases) == [Coordinate(0, 0.0, false), Coordinate(96000, 0.0, false)]
  {
    CoordinateTimesNonNegative(OneSecond.phases);
  }

  /** Passes 2 and 3 of the one-second example. */
  lemma OneSecondAfterSweep(p1: Pass1, pm: PhaseModFn)
    requires NonNegativeTimes(OneSecond.phases)
    requires Coordinates(OneSecond.phases) == [Coordinate(0, 0.0, false), Coordinate(96000, 0.0, false)]
    requires Pass1Sized(p1, 2) && p1.phase.start == [0.0, 0.0]
    requires p1.amp == Lane([0.4, 0.4], [0.4, 0.4]) && p1.freq == Lane([1000.0, 1000.0], [1000.0, 1000.0])
    ensures MapAfterSweep(p1, OneSecond, [0, 96000], [96000, 96000], 96000, 0, 96000, pm)
              == Success(Partial([MultiPaxel([Paxel(1000.0, 1000.0, 0.4, 0.4, 0.0, 0.0, 96000, 0, 95999)])]))
  {
    OneSecondCorrection(p1.phase, pm);
    var ph := CorrectPhases(p1.phase, [0, 96000], [96000, 96000],
                            [Coordinate(0, 0.0, false), Coordinate(96000, 0.0, false)], pm).value;
    OneSecondLayout(ph);
  }

  /** One second of a constant envelope, with a cell of one second and no
      offset, becomes exactly one multipaxel holding one paxel over the
      whole cell, under either schedule, whatever the natural phase and
      phase wrap. */
  lemma OneSecondWith(s: Schedule, np: PhaseFn, pm: PhaseModFn)
    ensures var r := MapEnvelopesWith(OneSecond, 96000, 0, s, np, pm);
            && r.Success? && |r.value.multiPaxels| == 1
            && r.value.multiPaxels[0].paxels
                 == [Paxel(1000.0, 1000.0, 0.4, 0.4, 0.0, 0.0, 96000, 0, 95999)]
  {
    OneSecondInputs();
    OneSecondSpans();
    OneSecondSweep(s, np);
    var p1 := Sweep([0, 96000], [96000, 96000], [0.0, 0.0], EnvelopeInput([0.4], []),
                    EnvelopeInput([1000.0], []), 96000, s, np).value;
    OneSecondAfterSweep(p1, pm);
  }

  /** The one-second example through the mapper as written. */
  lemma OneSecondOneMultiPaxel(np: PhaseFn, pm: PhaseModFn)
    ensures var r := MapEnvelopes(OneSecond, 96000, 0, np, pm);
            && r.Success? && |r.value.multiPaxels| == 1
            && r.value.multiPaxels[0].paxels
                 == [Paxel(1000.0, 1000.0, 0.4, 0.4, 0.0, 0.0, 96000, 0, 95999)]
  {
    OneSecondWith(SameTime, np, pm);
  }
}
