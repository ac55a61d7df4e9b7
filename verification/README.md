# RAINBOHz audio rendering core, modelled in Dafny

RAINBOHz is an additive synthesiser. A sound is a set of *partials*; each
partial is described by an amplitude envelope, a frequency envelope and a
list of *phase coordinates* (times at which the partial must reach a given
phase, or simply keep its natural phase). The renderer turns that
description into *paxels* — linear segments of one partial inside a fixed
grid cell of `g` samples — groups consecutive paxels of one cell into
*multipaxels*, renders every paxel into a cell-long buffer, overlays the
paxels of a multipaxel, concatenates the multipaxels of a partial, mixes
partials, and writes the result as a 24-bit PCM WAVE file.

This project models that core as pure functions over immutable datatypes
and proves what the code promises about it:

- `AudioTypes`, `EnvelopeTypes`: the specification records and the
  invariants their constructors assert (paxel, multipaxel, partial,
  multi-partial; envelopes, phase coordinates, physical envelopes) and the
  seconds-to-samples conversion.
- `PaxelBuilder`: the staged paxel builder with its rogue "unset" values,
  its finalisation, its equality that ignores `endSample`, and the
  position-ordered set entries of the grid mapper.
- `GridBoundaries`, `StageFill`, `EnvelopeSweep`, `PhaseChain`,
  `PhaseCorrection`, `CellArith`, `PaxelLayout`, `GridMapper`: the grid
  mapper `mapEnvelopesToPaxels` — the ordered boundary set, the entry
  durations, pass 1 (linear fill of amplitude and frequency between envelope
  points, natural phases), pass 2 (phase correction towards explicit phase
  coordinates), pass 3 (placement inside grid cells and grouping into
  multipaxels) — and the one-second example of the repository's test.
- `AudioHelpers`: `coherenceCompensation`, the smallest phase shift that
  brings one phase onto another.
- `PaxelRender`, `PartialRender`: the buffer layout of a paxel, the overlay
  of a multipaxel, the concatenation of a partial and the multi-partial mix,
  with the sample values of the oscillator left as a parameter.
- `EnvelopeTrim`, `CycleInterpolation`: `trimPartialEnvelope`,
  `populateAmplitudeEnvelope` and `interpolateControlledPhasePoint` of the
  physical envelope generator.
- `WavWriter`: the RIFF/WAVE header (the `fmt ` chunk with format tag 1,
  WAVE_FORMAT_PCM, then the `data` chunk), the 24-bit little-endian packing of integer and
  float samples, and a reader that recovers what was written.

Doubles and floats are modelled as `real`; fixed-width integers are
unbounded, with the `uint16`/`uint32` wrap-around written out where the
source computes in that width (the WAVE header fields, the end sample of a
physical envelope). `sin`, `naturalPhase` and `phaseMod` are parameters
(`Oscillator`, `PhaseFn`, `PhaseModFn`); the properties that need them state
their range as a precondition.

Two places where the code is at fault (see "## Findings") are modelled
twice, as written and corrected. The paxel's render window is bound as the
constructor bounds it (`ValidPaxelAsWritten`, `FinalizeAsWritten`) and as
the renderer needs it (`ValidPaxel`, `Finalize`); the containers, the
mapper and the renderer use the second. The amplitude schedule of pass 1 is
the source's in `GridMapper.MapEnvelopes` and the corrected one in
`GridMapper.MapEnvelopesCorrected`; the two agree when the amplitude
envelope has at most one stage.

The repository holds two generations of several files. The newer
snake_case files are the ones modelled; the older CamelCase copies state the
same rules and are covered by the same members:
`audio-rendering/include/AudioTypes.h` (paxel, multipaxel and partial
invariants at 122-138, 163-184 and 203-235; envelope invariants at 291-299;
`secondsToSamples` at 310-319; phase coordinates at 361-363, 372-379 and
407-422), `audio-rendering/include/PartialGenerator.h` (builder at 69-107,
entry ordering and equality at 117-124), `audio-rendering/src/PartialGenerator.cpp`
(label rule at 19-20 and 28-29, `generatePartial` at 76-98) and
`audio-rendering/src/WavWriter.cpp` (header at 30-80, float conversion at
82-92).

## Model

| member | source | states |
|---|---|---|
| AudioTypes.SingletonMultiPaxel | audio-rendering/include/audio_types.h:163-182 | a multipaxel of one paxel is valid exactly when that paxel is, because the join loop starts at index 1; this holds for the constructor's window and for the strict one |
| AudioTypes.SingletonPartial | audio-rendering/include/audio_types.h:203-235 | a partial of one multipaxel is valid exactly when that multipaxel is, for the constructor's window and for the strict one |
| AudioTypes.StrictWindow | audio-rendering/include/audio_types.h:121-125 | the strict paxel invariant is the constructor's invariant without the window end `endSample == durationSamples` |
| AudioTypes.MultiPaxelOverrunIsLast | audio-rendering/include/audio_types.h:163-182 | in a multipaxel the constructor accepts, only the last paxel can end one past the buffer, because each later paxel starts right after the one before inside the same cell |
| AudioTypes.PartialOverrunIsLast | audio-rendering/include/audio_types.h:203-235 | in a partial the constructor accepts, only the very last paxel can end one past the buffer, because each earlier multipaxel must fill its cell to index `durationSamples - 1` |
| AudioTypes.MultiPaxelSharedDuration | audio-rendering/include/audio_types.h:171-174 | every paxel of a valid multipaxel has the first paxel's cell length, not just its neighbour's |
| AudioTypes.MultiPaxelWindowsOrdered | audio-rendering/include/audio_types.h:175-180 | the render windows of a valid multipaxel are disjoint and ordered: any later paxel starts after any earlier one ends |
| AudioTypes.PartialSharedDuration | audio-rendering/include/audio_types.h:193-235 | in a valid partial every paxel of every multipaxel has one cell length, as the doc comment promises, by chaining the within- and across-boundary checks |
| EnvelopeTypes.SecondsToSamplesSeq | audio-rendering/include/envelope_types.h:124-133 | the conversion keeps the length and converts each time on its own |
| EnvelopeTypes.SecondsToSamplesBounds | audio-rendering/include/AudioTypes.h:310-319 | a non-negative time becomes the whole number of sample periods it contains: never negative, at most the exact product and less than one sample short of it |
| EnvelopeTypes.SecondsToSamplesMonotone | audio-rendering/include/envelope_types.h:124-133 | truncation never reorders times |
| EnvelopeTypes.EnvelopeSampleTimesNonNegative | audio-rendering/include/AudioTypes.h:291-299 | no stage of a valid envelope lasts a negative number of samples |
| EnvelopeTypes.NewEnvelope | audio-rendering/include/envelope_types.h:101-116 | construction fails exactly when there is no level, too few times or a negative time; otherwise the envelope is valid, keeps its inputs and holds the converted times |
| EnvelopeTypes.NewFrequencyEnvelope | audio-rendering/include/envelope_types.h:140-146 | fails exactly when the generic checks fail or some level is not positive |
| EnvelopeTypes.NewAmplitudeEnvelope | audio-rendering/include/envelope_types.h:152-162 | fails exactly when the generic checks fail or some level is outside [-1, 1] |
| EnvelopeTypes.ExplicitPhaseCoordinate | audio-rendering/include/envelope_types.h:172-178 | succeeds exactly for a non-negative time and a value in [0, 2*pi], giving a valid explicit coordinate that keeps both |
| EnvelopeTypes.NaturalPhaseCoordinate | audio-rendering/include/envelope_types.h:186-194 | succeeds exactly for a positive time, holding the natural-phase sentinel and the natural flag |
| EnvelopeTypes.PhaseCoordinateSamplesAscend | audio-rendering/include/envelope_types.h:212-232 | strictly ascending times in seconds give non-decreasing, non-negative times in samples |
| EnvelopeTypes.EndTimeIsLatest | audio-rendering/include/AudioTypes.h:407-422 | the last coordinate of a valid list bounds every other one, so it is the end of the partial |
| EnvelopeTypes.NewPhysicalPartialEnvelopes | audio-rendering/include/envelope_types.h:324-341 | succeeds exactly when the two envelopes share their first and last sample numbers; the end sample is the uint32 sum of start and last cycle point, equal to the plain sum when it does not wrap |
| PaxelBuilder.FinalizeAsWritten | audio-rendering/include/partial_generator.h:78-93 | fails as unset exactly when some field still holds its rogue value; succeeds exactly when every field is set and the fields pass the constructor's own paxel check, giving the builder's fields |
| PaxelBuilder.FinalizeAgrees | audio-rendering/include/audio_types.h:121-125 | the strict and the constructor's finalisation agree on every builder whose window ends inside the buffer, and differ exactly on complete builders that end one past it and pass the constructor's check |
| PaxelBuilder.FinalizeOverrun | audio-rendering/include/audio_types.h:121-125 | a one-sample cell with window 0..1 passes the constructor's check and fails the strict one |
| PaxelBuilder.Finalize | audio-rendering/include/partial_generator.h:78-93 | fails as unset exactly when some field still holds its rogue value; succeeds exactly when every field is set and the fields form a valid paxel, copying every field unchanged |
| PaxelBuilder.FreshIsUnset | audio-rendering/include/partial_generator.h:103-116 | a fresh builder holds -10.0 in every double field and 0xFFFFFFFF in every uint32 field, and cannot be finalised |
| PaxelBuilder.UnsetDoubleViolatesPaxel | audio-rendering/include/partial_generator.h:103-104 | the double rogue value lies outside every legal frequency, amplitude and phase range, so any unset double field breaks the paxel invariant |
| PaxelBuilder.UnsetDurationIsLegal | audio-rendering/include/PartialGenerator.h:95-107 | the uint32 rogue value is a legal cell length, so only the explicit check rejects an unset duration, while an unset start or end sample cannot lie inside a uint32-sized buffer |
| PaxelBuilder.SameShapeIgnoresEnd | audio-rendering/include/partial_generator.h:96-101 | builder equality is equality after forgetting `endSample`; it is reflexive and symmetric, and any end sample can be changed without breaking it |
| PaxelBuilder.BeforeKeysOnPosition | audio-rendering/include/partial_generator.h:126-134 | the ordering treats two entries as one key exactly when their positions agree; entry equality implies key equivalence but not conversely |
| PaxelBuilder.InsertEntry | audio-rendering/include/PartialGenerator.h:116-119 | set insertion keeps the entries ordered by position and adds exactly the new position to the key set |
| PaxelBuilder.InsertEntryMembers | audio-rendering/src/partial_generator.cpp:61-67 | insertion keeps every entry, adds only the new one, is a no-op when the position is taken and grows the set by one otherwise |
| PaxelBuilder.IndexOf | audio-rendering/src/partial_generator.cpp:182-186 | finds the entry at a position exactly when the position is a key |
| CellArith.RemainderInCell | audio-rendering/src/partial_generator.cpp:466-467 | inside cell `c` the position within the cell is the distance from the cell's start |
| CellArith.RemainderIsMod | audio-rendering/src/partial_generator.cpp:467 | the repeated-subtraction remainder is the `%` of the source |
| GridBoundaries.InsertAll | audio-rendering/src/partial_generator.cpp:62-111 | a run of insertions keeps the set ordered and its key set is the union of the old keys and the inserted positions |
| GridBoundaries.InsertAllMembers | audio-rendering/src/partial_generator.cpp:62-68 | insertions never replace an entry already present and add only inserted entries |
| GridBoundaries.GridSeqMembers | audio-rendering/src/partial_generator.cpp:75-81 | the grid loop inserts exactly the lines `offset + k*g` below the end time |
| GridBoundaries.CumulativeFromMembers | audio-rendering/src/partial_generator.cpp:92-100 | the envelope loop inserts exactly the running totals whose predecessor is not beyond the end time: every point up to the end and the first one past it |
| GridBoundaries.EnvelopePointsInserted | audio-rendering/src/partial_generator.cpp:103-111 | the envelope entries' keys are exactly the envelope points up to and including the first past the end |
| GridBoundaries.EndTimeIsLastCoordinate | audio-rendering/src/partial_generator.cpp:70 | the end time read from the set after the phase inserts is the last phase coordinate's time |
| GridBoundaries.BoundarySet | audio-rendering/src/partial_generator.cpp:62-111 | a position is a boundary exactly when it is a phase-coordinate time, a grid line before the end, or an amplitude or frequency envelope point up to the first one past the end |
| GridBoundaries.PhasePresetsSurvive | audio-rendering/src/partial_generator.cpp:62-68 | every phase-coordinate entry with its preset start phase survives the later inserts, and every other entry is an unset builder |
| GridBoundaries.FirstCoordinateKept | audio-rendering/src/partial_generator.cpp:350-353 | the first coordinate's entry, with its start phase, is in the set, as pass 2 asserts |
| StageFill.DurationsTile | audio-rendering/src/partial_generator.cpp:164-169 | each entry lasts up to the next one, the last lasts a whole cell, and all durations are positive for a positive cell |
| StageFill.DurationsTelescope | audio-rendering/src/partial_generator.cpp:164-169 | the entries between two positions last exactly the distance between them |
| StageFill.StepSpec | audio-rendering/src/partial_generator.cpp:211-219 | one turn of the fill loop writes the start plus duration times gradient to both sides of one boundary and changes nothing else of the level; an amplitude turn changes no phase |
| StageFill.PhaseStepSpec | audio-rendering/src/partial_generator.cpp:319-333 | a phase step sets the entry's end phase to the natural phase over its own values and sets the next start phase only when it is unset; when `naturalPhase` stays in [0, 2*pi), the phase it sets meets the range assert at 322 |
| StageFill.RunFrame | audio-rendering/src/partial_generator.cpp:211-219 | the fill loop changes the level and the phases only inside its stage, keeping the first start and last end |
| StageFill.RunJoins | audio-rendering/src/partial_generator.cpp:211-219 | the fill loop writes one value to both sides of every boundary it passes |
| StageFill.RunOnLine | audio-rendering/src/partial_generator.cpp:201-219 | every value the fill loop writes lies on the straight line from the stage start with the stage's gradient |
| StageFill.StepPhases | audio-rendering/src/partial_generator.cpp:296-308 | a frequency turn links the phase across its boundary unless the start phase after it was preset, and sets no later phase |
| StageFill.RunPhases | audio-rendering/src/partial_generator.cpp:292-309 | every boundary phase the frequency fill passes is linked unless preset |
| StageFill.MatchStageEnds | audio-rendering/src/partial_generator.cpp:196-226 | a stage writes its two envelope levels exactly: the previous level at its start, the current level at both sides of the final boundary and over the current entry |
| StageFill.MatchStageJoins | audio-rendering/src/partial_generator.cpp:211-226 | every boundary of a stage joins, including the final one where the level is pinned |
| StageFill.MatchStageOnLine | audio-rendering/src/partial_generator.cpp:201-219 | every entry of a stage before the current one starts on the line from the previous level |
| StageFill.MatchStageFrame | audio-rendering/src/partial_generator.cpp:179-235 | a stage changes its quantity only on its own entries and phases only up to the entry after it; an amplitude stage changes no phase |
| StageFill.MatchStagePhases | audio-rendering/src/partial_generator.cpp:292-333 | each boundary phase of a frequency stage, up to the one after the current entry, is linked unless preset |
| StageFill.ExactFinalBoundary | audio-rendering/src/partial_generator.cpp:222-226 | over exact arithmetic the line reaches the stage's level, so pinning the final boundary changes nothing |
| StageFill.MatchStageBetween | audio-rendering/src/partial_generator.cpp:201-226 | every value a stage writes lies between its two envelope levels |
| EnvelopeSweep.Find | audio-rendering/src/partial_generator.cpp:182-189 | the search returns the first index holding the position, and fails exactly when no entry holds it |
| EnvelopeSweep.FindIncreasing | audio-rendering/src/partial_generator.cpp:263-270 | in a strictly increasing set the search finds the one index of each position |
| EnvelopeSweep.StartCursor | audio-rendering/src/partial_generator.cpp:125-150 | each envelope starts at time 0 on its first level, waiting for its first point |
| EnvelopeSweep.NextTarget | audio-rendering/src/partial_generator.cpp:336-341 | after a match the awaited position moves on by the next stage's time; the as-written amplitude schedule moves it by the completed stage's time |
| EnvelopeSweep.Advance | audio-rendering/src/partial_generator.cpp:176-235 | one envelope's turn fails exactly when a stage ends at this entry and its previous point is missing, not before it, or has no level after it; otherwise it holds, waits, or completes the stage and advances the cursor |
| EnvelopeSweep.FilledAfterHold | audio-rendering/src/partial_generator.cpp:176-178 | holding the last level keeps the exhausted envelope's joins |
| EnvelopeSweep.FilledAfterMatch | audio-rendering/src/partial_generator.cpp:179-226 | a completed stage leaves the envelope joined and filled up to the matched entry |
| EnvelopeSweep.AdvanceFilled | audio-rendering/src/partial_generator.cpp:176-235 | each turn keeps the joined-prefix part of the sweep invariant |
| EnvelopeSweep.AdvanceSucceeds | audio-rendering/src/partial_generator.cpp:179-189 | on a set holding the envelope's points a followable envelope's turn never fails |
| EnvelopeSweep.AdvanceTracks | audio-rendering/src/partial_generator.cpp:336-341 | each turn keeps the cursor on the envelope's own points |
| EnvelopeSweep.AdvanceWithin | audio-rendering/src/partial_generator.cpp:201-226 | each turn keeps every written value between the envelope's levels |
| EnvelopeSweep.AdvanceOk | audio-rendering/src/partial_generator.cpp:158-343 | the whole per-envelope invariant survives a turn, which succeeds |
| EnvelopeSweep.SweepFromOk | audio-rendering/src/partial_generator.cpp:158-343 | from any state satisfying the invariant the rest of the sweep succeeds and ends satisfying it |
| EnvelopeSweep.SweepCovers | audio-rendering/src/partial_generator.cpp:158-343 | on envelopes the sweep can follow (exactly one time per stage, no zero-sample stage) and a set holding their points, pass 1 with the corrected schedule never fails, and every entry up to the end has both envelopes' values between their levels and joins the next entry |
| EnvelopeSweep.ZeroStageAborts | audio-rendering/src/partial_generator.cpp:176-235 | an amplitude stage of zero samples makes pass 1 fail with `EmptyStage`: its awaited point is its previous point |
| EnvelopeSweep.ExtraTimeAborts | audio-rendering/include/envelope_types.h:106-108 | an envelope with more times than stages, which the envelope accepts, makes pass 1 fail with `ReadPastLevels` once its levels run out |
| EnvelopeSweep.ExhaustedIgnoresTarget | audio-rendering/src/partial_generator.cpp:238-259 | once an envelope's times are used up, its turn holds its last level whatever position it was waiting for |
| EnvelopeSweep.AdvanceScheduleFree | audio-rendering/src/partial_generator.cpp:226-234 | with at most one stage, one envelope's turn gives the same result under both schedules, since the awaited positions they compute differ only once the envelope is exhausted |
| EnvelopeSweep.SweepFromScheduleFree | audio-rendering/src/partial_generator.cpp:158-343 | from states that differ only in an exhausted amplitude cursor's awaited position, the rest of pass 1 fails alike or gives the same builder values under both schedules |
| EnvelopeSweep.SweepScheduleFree | audio-rendering/src/partial_generator.cpp:226-234 | with at most one amplitude stage, pass 1 as written and corrected fail alike or give the same builder values |
| EnvelopeSweep.AmplitudeScheduleAsWritten | audio-rendering/src/partial_generator.cpp:230-234 | with the amplitude schedule as written, a three-level envelope is still at 0.75 at the entry where it should reach 1 |
| EnvelopeSweep.AmplitudeScheduleCorrected | audio-rendering/src/partial_generator.cpp:336-341 | the corrected schedule reaches the last level at its own time |
| PhaseChain.NaturalPhasesLinked | audio-rendering/src/partial_generator.cpp:319-333 | the corrected natural phases start on the preset, start every later entry on its preset or else on the end phase before it, and end every entry on the natural phase over its own final values |
| PhaseChain.NaturalPhasesInRange | audio-rendering/src/partial_generator.cpp:319-323 | with the natural phase and the presets in [0, 2*pi), every corrected phase is too |
| PhaseChain.StalePhaseAsWritten | audio-rendering/src/partial_generator.cpp:292-333 | as written, the entry ending a frequency stage gets a new end phase while the next start phase keeps the old one |
| PhaseChain.StalePhaseCorrected | audio-rendering/src/partial_generator.cpp:319-333 | for the same frequencies the corrected phases link across that boundary |
| PhaseCorrection.SpreadFrame | audio-rendering/src/partial_generator.cpp:410-420 | the spread loop writes only the end phases between the two coordinates and the start phases after them |
| PhaseCorrection.SpreadValues | audio-rendering/src/partial_generator.cpp:410-420 | each boundary the spread passes gets one value on both sides: the wrapped natural phase plus the share of the shift for the time elapsed since the previous coordinate |
| PhaseCorrection.SpreadSucceeds | audio-rendering/src/partial_generator.cpp:413-416 | with `phaseMod` in range the spread's range assert always holds |
| PhaseCorrection.SpreadInRange | audio-rendering/src/partial_generator.cpp:413-417 | the spread keeps every phase in [0, 2*pi) |
| PhaseCorrection.CorrectTo | audio-rendering/src/partial_generator.cpp:388-435 | the correction up to one explicit coordinate moves past its entry, which holds the coordinate's time; a coordinate with no entry is an error |
| PhaseCorrection.CorrectToSpec | audio-rendering/src/partial_generator.cpp:404-435 | one explicit coordinate's correction links every boundary from the previous coordinate to it, ends on the required phase, and changes no other phase |
| PhaseCorrection.ExplicitFromNext | audio-rendering/src/partial_generator.cpp:439-440 | moving past a coordinate does not change which later entries await an explicit phase |
| PhaseCorrection.NotExplicitUpTo | audio-rendering/src/partial_generator.cpp:374-383 | no later explicit coordinate sits at or before a natural one |
| PhaseCorrection.NaturalKeepsCorrected | audio-rendering/src/partial_generator.cpp:374-383 | a natural coordinate moves the loop to its entry without touching any phase, and keeps the loop invariant |
| PhaseCorrection.ExplicitKeepsCorrected | audio-rendering/src/partial_generator.cpp:388-435 | an explicit coordinate's correction keeps the loop invariant for the next coordinate |
| PhaseCorrection.CorrectFromLinked | audio-rendering/src/partial_generator.cpp:363-441 | when the outer loop succeeds, every boundary up to the last coordinate joins |
| PhaseCorrection.CorrectPhases | audio-rendering/src/partial_generator.cpp:350-441 | pass 2 fails on fewer than two coordinates and succeeds only when the set is non-empty and its first start phase is the first coordinate's |
| PhaseCorrection.CorrectPhasesLinked | audio-rendering/src/partial_generator.cpp:350-441 | if pass 1 left every boundary linked except at explicit coordinates, pass 2 leaves every boundary up to the last coordinate linked |
| PhaseCorrection.CorrectFromInRange | audio-rendering/src/partial_generator.cpp:413-425 | the outer loop keeps every phase in [0, 2*pi) |
| PhaseCorrection.CorrectPhasesInRange | audio-rendering/src/partial_generator.cpp:413-425 | pass 2 keeps every phase in [0, 2*pi) |
| AudioHelpers.FModTwoPi | audio-rendering/include/AudioHelpers.h:21-22 | `fmod` by 2*pi keeps the sign of its argument: in [0, 2*pi) for non-negative input, in (-2*pi, 0] for negative input |
| AudioHelpers.ReduceTurns | audio-rendering/include/AudioHelpers.h:11-13 | two phases reduce to the same value exactly when they differ by whole turns |
| AudioHelpers.CoherenceCompensationAsWritten | audio-rendering/include/AudioHelpers.h:16-36 | as written: zero for equal phases, in [-pi, pi] whenever the range assert holds, and the assert always holds for non-negative phases |
| AudioHelpers.NegativePhaseBreaksAssert | audio-rendering/include/AudioHelpers.h:21-34 | a negative source phase makes the range assert fail |
| AudioHelpers.CoherenceCompensation | audio-rendering/include/AudioHelpers.h:16-36 | the corrected shift is zero for equal phases and always in [-pi, pi] |
| AudioHelpers.CompensationAgreesOnNonNegative | audio-rendering/include/AudioHelpers.h:20-34 | on non-negative phases the corrected shift is exactly the source's |
| AudioHelpers.CompensationAligns | audio-rendering/include/AudioHelpers.h:11-32 | the shifted source phase equals the target up to whole turns |
| AudioHelpers.CompensationIsSmallest | audio-rendering/include/AudioHelpers.h:25-34 | no shift of smaller magnitude aligns the source with the target |
| PaxelLayout.InverseOffset | audio-rendering/src/partial_generator.cpp:459 | the inverse offset lies inside the cell, moves the offset onto a cell boundary, and is zero exactly for offset zero |
| PaxelLayout.PlacedBuilder | audio-rendering/src/partial_generator.cpp:464-472 | a placed entry lasts a whole cell and its window starts inside the cell |
| PaxelLayout.Emit | audio-rendering/src/partial_generator.cpp:474-476 | emitting succeeds exactly when finalising does, giving the builder's fields as a paxel |
| PaxelLayout.EmitAgreesWithConstructor | audio-rendering/src/partial_generator.cpp:474-476 | every paxel the layout places ends inside its buffer, so there the strict check and the constructor's check both succeed with the builder's fields |
| PaxelLayout.Layout | audio-rendering/src/partial_generator.cpp:444-496 | pass 3 yields only valid partials, and fails on an empty set |
| PaxelLayout.CellEndIsGridLine | audio-rendering/src/partial_generator.cpp:479 | shifted back by the inverse offset, the end of every cell is a grid line |
| PaxelLayout.CellWindow | audio-rendering/src/partial_generator.cpp:464-472 | an entry before the end time ends inside its cell |
| PaxelLayout.CellPaxel | audio-rendering/src/partial_generator.cpp:464-476 | the paxel of an entry before the end time is a valid paxel inside its cell |
| PaxelLayout.SameCellJoins | audio-rendering/src/partial_generator.cpp:476-479 | consecutive entries in one cell join within a multipaxel |
| PaxelLayout.NextCellJoins | audio-rendering/src/partial_generator.cpp:479-488 | an entry ending on a cell's closing grid line fills its cell, and the next entry starts the next cell at index 0, joining across the boundary |
| PaxelLayout.CellMultiPaxel | audio-rendering/src/partial_generator.cpp:479-484 | the entries of one cell form a valid multipaxel |
| PaxelLayout.LayoutClosesHere | audio-rendering/src/partial_generator.cpp:479-488 | when the next entry is on the closing grid line or the end time, the open multipaxel closes and extends the chain |
| PaxelLayout.LayoutStaysInCell | audio-rendering/src/partial_generator.cpp:476-479 | when the next entry is inside the cell, the loop goes on with the open multipaxel one paxel longer |
| PaxelLayout.LayoutSucceeds | audio-rendering/src/partial_generator.cpp:444-496 | on everything the earlier passes hand it, pass 3 succeeds |
| PaxelLayout.LayoutFlattens | audio-rendering/src/partial_generator.cpp:464-492 | the resulting partial holds the placed paxel of every entry before the end time, each once and in order; the entry at the end time is not emitted |
| PaxelLayout.LayoutFirstPaxel | audio-rendering/src/partial_generator.cpp:455-472 | the partial starts with entry 0, a whole cell long, its window opening at the inverse offset |
| GridMapper.MapEnvelopesWith | audio-rendering/src/partial_generator.cpp:47-496 | the mapper under either amplitude schedule yields only valid partials |
| GridMapper.MapAfterSweep | audio-rendering/src/partial_generator.cpp:346-496 | passes 2 and 3 yield only valid partials |
| GridMapper.MapEnvelopes | audio-rendering/src/partial_generator.cpp:47-496 | the mapper as written, whose amplitude envelope waits for the time of the stage it has just completed, yields only valid partials |
| GridMapper.MapEnvelopesCorrected | audio-rendering/src/partial_generator.cpp:47-496 | the mapper with both envelopes waiting for the next stage's time yields only valid partials |
| GridMapper.MapEnvelopesAgree | audio-rendering/src/partial_generator.cpp:226-234 | the mapper as written and the corrected one give the same result whenever the amplitude envelope has at most one stage |
| GridMapper.OneSecondBoundaries | audio-rendering/src/partial_generator.cpp:62-114 | the one-second example's set is the two phase coordinates at 0 and 96000 |
| GridMapper.OneSecondSweep | audio-rendering/src/partial_generator.cpp:158-259 | pass 1 holds both constant levels over both entries and keeps the preset phases |
| GridMapper.OneSecondCorrection | audio-rendering/src/partial_generator.cpp:404-435 | pass 2 sets the end phase of entry 0 to the phase the second coordinate asks for |
| GridMapper.OneSecondLayout | audio-rendering/src/partial_generator.cpp:464-492 | pass 3 places entry 0 over the whole cell and closes at the end time |
| GridMapper.OneSecondInputs | audio-rendering/src/partial_generator.cpp:62-114 | the one-second example's envelopes are valid, and its set has the positions 0 and 96000, the end time 96000 and preset start phases 0 |
| GridMapper.OneSecondSpans | audio-rendering/src/partial_generator.cpp:164-169 | both entries of the one-second example last 96000 samples, and its coordinates are at 0 and 96000 with phase 0 |
| GridMapper.OneSecondAfterSweep | audio-rendering/src/partial_generator.cpp:346-496 | passes 2 and 3 of the one-second example give one multipaxel holding one paxel over the whole cell |
| GridMapper.OneSecondWith | audio-rendering/tests/test_multi_partial_generator.cpp:10-15 | under either schedule, a one-second constant envelope (0.4, 1000 Hz, phase 0 at 0 and 1 s) with a one-second cell and offset 0 maps to exactly one multipaxel of one paxel covering samples 0 to 95999 |
| GridMapper.OneSecondOneMultiPaxel | audio-rendering/tests/test_multi_partial_generator.cpp:10-15 | the mapper as written maps that envelope to exactly one multipaxel of one paxel covering samples 0 to 95999 |
| PaxelRender.RenderPaxel | audio-rendering/src/PaxelGenerator.cpp:75-92 | the buffer is one cell long and silent outside the window |
| PaxelRender.GeneratePaxel | audio-rendering/src/PaxelGenerator.cpp:70-92 | the loop that steps the amplitude once per sample computes the closed-form buffer: amplitude times oscillator at every window index |
| PaxelRender.WindowInBuffer | audio-rendering/src/PaxelGenerator.cpp:19-20 | the window has `1 + endSample - startSample` indices, exactly those from start to end, all inside the buffer |
| PaxelRender.AmplitudeBetween | audio-rendering/src/PaxelGenerator.cpp:70-84 | the interpolated amplitude stays between the start and end amplitudes |
| PaxelRender.SamplesBounded | audio-rendering/src/PaxelGenerator.cpp:80-81 | with the oscillator in [-1, 1] every rendered sample is in [-1, 1], as the loop asserts |
| PaxelRender.RenderPaxelAsWritten | audio-rendering/src/PaxelGenerator.cpp:75-79 | under the invariant as written, rendering stays in the buffer exactly when the window ends before `durationSamples` |
| PaxelRender.WindowOverrunsBuffer | audio-rendering/include/audio_types.h:122-125 | a paxel the constructor accepts makes the renderer write past its buffer |
| PaxelRender.StrictWindowFits | audio-rendering/src/PaxelGenerator.cpp:75-92 | the corrected invariant is the one as written plus a strict window bound, and under it rendering succeeds with the closed-form buffer |
| PaxelRender.AddSamples | audio-rendering/src/MultiPaxelGenerator.cpp:27-28 | element-wise addition of equal-length buffers |
| PaxelRender.MultiPaxelStackable | audio-rendering/include/audio_types.h:171-180 | the paxels of a valid multipaxel are valid, share one cell length and have ordered disjoint windows |
| PaxelRender.RenderMultiPaxel | audio-rendering/src/MultiPaxelGenerator.cpp:17-32 | the overlay of a multipaxel is one cell long |
| PaxelRender.OverlaySilent | audio-rendering/src/MultiPaxelGenerator.cpp:21-29 | an index no paxel covers stays silent |
| PaxelRender.OverlayCovered | audio-rendering/src/MultiPaxelGenerator.cpp:21-29 | an index covered by one paxel carries that paxel's sample and nothing from the others |
| PaxelRender.MultiPaxelCovering | audio-rendering/src/MultiPaxelGenerator.cpp:17-32 | each sample of a multipaxel is the sample of the one paxel covering it, or silence |
| PartialRender.NewPartialGenerator | audio-rendering/src/partial_generator.cpp:14-21 | a generator is built exactly when no label is the empty string, and keeps its partial and labels |
| PartialRender.MultiPaxelBufferLength | audio-rendering/src/MultiPaxelGenerator.cpp:21-22 | every multipaxel buffer of a valid partial is one cell long |
| PartialRender.PartialCell | audio-rendering/src/partial_generator.cpp:509-512 | sample `j` of cell `i` of the partial's buffer is sample `j` of multipaxel `i` |
| PartialRender.PartialLength | audio-rendering/src/PartialGenerator.cpp:80-90 | a partial's buffer is one cell per multipaxel long |
| PartialRender.GeneratePartial | audio-rendering/src/PartialGenerator.cpp:76-98 | the loop computes the concatenation, which is non-empty and ends on the last sample of the last multipaxel |
| PartialRender.EndsOnLastBuffer | audio-rendering/src/PartialGenerator.cpp:90-95 | the concatenation is non-empty and its last sample is the last sample of the last multipaxel's buffer |
| PartialRender.MaxMultiPaxels | audio-rendering/src/MultiPartialGenerator.cpp:28-40 | the longest partial's length bounds every partial and is attained |
| PartialRender.AddPrefix | audio-rendering/src/MultiPartialGenerator.cpp:49-50 | a buffer is added from index 0 and leaves the indices past its end alone |
| PartialRender.MixFromColumns | audio-rendering/src/MultiPartialGenerator.cpp:46-51 | the accumulated mix at each index is the sum over the buffers long enough to reach it |
| PartialRender.BuffersFit | audio-rendering/src/MultiPartialGenerator.cpp:40-44 | with equal cells every partial's buffer fits in the mix, which is at least one cell long |
| PartialRender.Mix | audio-rendering/src/MultiPartialGenerator.cpp:17-55 | the mix fails with a cell mismatch exactly when the partials' cells differ, fails with an empty label exactly when the cells agree and the partial generator built at line 47 would refuse the labels, and otherwise is longest-partial-many cells long and non-empty |
| PartialRender.MixSamples | audio-rendering/src/MultiPartialGenerator.cpp:44-51 | each sample of the mix is the sum over the partials long enough to have one |
| PartialRender.MixOfOne | audio-rendering/src/MultiPartialGenerator.cpp:44-51 | the mix of one partial is that partial's buffer when no label is empty, and fails with an empty label otherwise |
| EnvelopeTrim.Normalise | audio-rendering/src/physical_envelope_generator.cpp:67-79 | dropping trailing times and levels leaves prefixes of both lists with one time per gap |
| EnvelopeTrim.Truncate | audio-rendering/src/physical_envelope_generator.cpp:96-105 | removing whole trailing stages leaves prefixes with at least one stage, the last of which crosses the end time |
| EnvelopeTrim.ShortenCuts | audio-rendering/src/physical_envelope_generator.cpp:107-121 | the cut keeps every stage but the last, shortens it to end at the end time, and interpolates its level within the stage it cut |
| EnvelopeTrim.LerpBetween | audio-rendering/src/physical_envelope_generator.cpp:113-115 | interpolation at a fraction in [0, 1] stays between the two levels |
| EnvelopeTrim.Trim | audio-rendering/src/physical_envelope_generator.cpp:60-129 | a trimmed envelope has one time per gap, sums exactly to the end time, keeps at least two levels for a positive end time, and keeps times non-negative |
| EnvelopeTrim.TrimIdempotent | audio-rendering/src/physical_envelope_generator.cpp:92 | trimming twice is trimming once |
| EnvelopeTrim.TrimShape | audio-rendering/src/physical_envelope_generator.cpp:92-122 | a fitting envelope is untouched, a short one gains one stage holding its last level, a long one is truncated and its last stage cut |
| EnvelopeTrim.DropRedundant | audio-rendering/src/physical_envelope_generator.cpp:67-75 | the two popping loops compute the normalised envelope |
| EnvelopeTrim.SumTimes | audio-rendering/src/physical_envelope_generator.cpp:81 | the front-to-back accumulation equals the total |
| EnvelopeTrim.CutToEnd | audio-rendering/src/physical_envelope_generator.cpp:96-121 | the truncating branch computes the truncated and cut envelope |
| EnvelopeTrim.TrimPartialEnvelope | audio-rendering/src/physical_envelope_generator.cpp:60-129 | the method computes the trimmed envelope and meets the postconditions the source asserts |
| EnvelopeTrim.AmplitudeEnvelope | audio-rendering/src/physical_envelope_generator.cpp:350-365 | one point per level, carrying that level |
| EnvelopeTrim.AmplitudePointsOrdered | audio-rendering/src/physical_envelope_generator.cpp:350-365 | the points are in time order and start at sample 0 |
| EnvelopeTrim.TrimmedAmplitudeEndsAtEnd | audio-rendering/src/physical_envelope_generator.cpp:350-365 | after trimming, the last amplitude point sits at the end time in samples, and for a positive end time there are at least two points |
| EnvelopeTrim.PopulateAmplitudeEnvelope | audio-rendering/src/physical_envelope_generator.cpp:350-365 | the loop computes the amplitude envelope |
| CycleInterpolation.ScanBack | audio-rendering/src/physical_envelope_generator.cpp:209-214 | the backward scan finds the nearest defined point before, with only undefined points in between |
| CycleInterpolation.ScanForward | audio-rendering/src/physical_envelope_generator.cpp:217-222 | the forward scan finds the nearest defined point after, with only undefined points in between |
| CycleInterpolation.TimeFraction | audio-rendering/src/physical_envelope_generator.cpp:224-227 | the fraction is undefined exactly when both neighbours share a sample, and otherwise lies in [0, 1] |
| CycleInterpolation.InterpolateBetween | audio-rendering/src/physical_envelope_generator.cpp:233-237 | the corrected count lies between its neighbours' counts, is exact at either neighbour's sample, and is above the backward count and positive for a rising non-negative stage past its start |
| CycleInterpolation.InterpolateAsWritten | audio-rendering/src/physical_envelope_generator.cpp:229-231 | as written, a count exists exactly when the neighbours' samples differ |
| CycleInterpolation.AsWrittenOvershoots | audio-rendering/src/physical_envelope_generator.cpp:229-237 | as written, the count is the corrected one plus the whole rise of the stage: never below the forward count of a rising stage and above it past the start |
| CycleInterpolation.HalfwayOvershoots | audio-rendering/src/physical_envelope_generator.cpp:229-237 | halfway between counts 1 and 2 the source computes 2.5, breaking its own bound; the corrected formula gives 1.5 |
| WavWriter.ValueOfBytes | audio-rendering/src/wav_writer.cpp:17-23 | a value below 256^n read back from its n little-endian bytes is itself |
| WavWriter.BytesOfValue | audio-rendering/src/wav_writer.cpp:17-23 | any byte string is the little-endian encoding of the value it reads as |
| WavWriter.Header | audio-rendering/src/wav_writer.cpp:60-77 | the header is 44 bytes |
| WavWriter.HeaderLayout | audio-rendering/src/wav_writer.cpp:60-77 | each chunk tag and each header field sits at its offset of the canonical 44-byte header, in little-endian order |
| WavWriter.WriteToFile | audio-rendering/src/wav_writer.cpp:39-86 | the file is the header followed by the PCM data unchanged |
| WavWriter.ReadWrittenFile | audio-rendering/src/wav_writer.cpp:60-78 | reading back a written file finds every chunk tag where the layout puts it and recovers every header field and the data |
| WavWriter.InfoSizes | audio-rendering/src/wav_writer.cpp:45-50 | the constant fields are 16, 1 and 24; the channels and rate are the writer's; when nothing wraps the data size is the PCM length and 8 plus the RIFF size is the file length |
| WavWriter.InfoRates | audio-rendering/src/WavWriter.cpp:43-46 | when nothing wraps the block alignment is three bytes per channel and the byte rate is the rate times the block alignment |
| WavWriter.Pack24RoundTrip | audio-rendering/src/wav_writer.cpp:97-98 | sign-extending the three packed bytes recovers every sample of the 24-bit range |
| WavWriter.QuarterTowardZero | audio-rendering/src/wav_writer.cpp:105-106 | C++ division by four truncates toward zero: the quotient is the largest multiple of four not beyond the input in magnitude, with the input's sign |
| WavWriter.SampleBytes | audio-rendering/src/wav_writer.cpp:94-112 | each sample takes three bytes |
| WavWriter.PcmAt | audio-rendering/src/wav_writer.cpp:92-114 | bytes `3i..3i+3` of the PCM data are sample `i`'s bytes |
| WavWriter.DecodePcmOfSamples | audio-rendering/src/wav_writer.cpp:95-111 | decoding the PCM data recovers every sample, scaled by a quarter for the bundle type |
| WavWriter.UnpackedPcmIsSilent | audio-rendering/src/wav_writer.cpp:92-112 | for the other sample types every byte stays zero |
| WavWriter.ConvertSamplesToPcm | audio-rendering/src/wav_writer.cpp:88-116 | the loop writes exactly three bytes per sample, each sample's packed bytes in order |
| WavWriter.WriteSamples | audio-rendering/src/wav_writer.cpp:29-32 | the written file is the header and the packed samples |
| WavWriter.Quantise | audio-rendering/src/wav_writer.cpp:123-124 | the quantised sample has the sign of its input or is zero, fits 24 bits for input in [-1, 1], and is the scaled input truncated toward zero |
| WavWriter.ConvertFloatSamplesToPcm | audio-rendering/src/wav_writer.cpp:118-130 | the loop writes three bytes per sample, the packed quantised samples in order |
| WavWriter.DecodeFloatPcm | audio-rendering/src/WavWriter.cpp:82-92 | for samples in [-1, 1], decoding the PCM data recovers every quantised sample |
| WavWriter.WriteFloatSamples | audio-rendering/src/WavWriter.cpp:30-80 | reading back the written float file recovers the header for three bytes per sample and the packed quantised samples |

## Left out

- File and stream I/O (opening, writing, closing, exceptions) in `wav_writer.cpp` and `WavWriter.cpp`: the file is a byte sequence, and the host is taken to be little-endian, as the source's raw copies assume.
- `sin`, `naturalPhase` and `phaseMod` are parameters: their definitions are not part of this model (the `audio_helpers.h` header defining the last two is not part of this model), and the phase accumulation of `generatePaxel` (`PaxelGenerator.cpp:28-66,82-87`) is folded into the `Oscillator` parameter.
- Floating-point rounding: every double and float is a real, so the properties hold over exact arithmetic (in particular `ExactFinalBoundary` and the exact sums of trimmed envelopes).
- `populateCycleEnvelope` and both passes of `interpolateControlledPhasePoints` (`physical_envelope_generator.cpp:131-202,242-347`): floating-point cycle accumulation whose inputs only they produce; only the single-point interpolation they call is modelled.
- CycleInterpolation.TimeFraction: the uint32 wrap of the sample differences is not modelled; points are required to be in sample order, as the cycle envelope is produced.
- The integer overflow of the int32 mix in `MultiPartialGenerator.cpp:49-50` and the sample type conversions between the generators: samples are unbounded reals.
- The uint32 wrap of the running totals in the boundary set and in `populateAmplitudeEnvelope`: totals are unbounded.
- The labels themselves: they play no part in rendering, so only the check the partial generator makes of them (`NewPartialGenerator`, and through it `Mix`) is modelled.
- `SineWaveGenerator`, `main.cpp` and the unimplemented `mapEnvelopesToPaxels` of `PartialGenerator.cpp:32-74`.
- GridMapper.MapEnvelopes: states that a result is a valid partial, and that it equals the corrected mapper's whenever the amplitude envelope has at most one stage (`MapEnvelopesAgree`); success on all valid envelopes is not stated, because it needs `naturalPhase` in range and envelopes the sweep can follow (see `SweepCovers` below). The passes' success conditions are proved one by one (`SweepCovers`, `CorrectPhasesLinked`, `LayoutSucceeds`) and the one-second example end to end.
- PaxelBuilder.Finalize: checks the strict window `endSample < durationSamples`, where the constructor at `audio_types.h:121-125` also accepts `endSample == durationSamples` (the first finding). `FinalizeAsWritten` is the constructor's check, `FinalizeAgrees` says exactly where the two differ, and `EmitAgreesWithConstructor` shows that they agree on every builder the layout emits.
- PaxelLayout.Emit: inherits the strict window of `Finalize`; on every paxel the layout places it agrees with the constructor's check (`EmitAgreesWithConstructor`).
- AudioTypes.ValidMultiPaxel: and with it `ValidPartial` and `ValidMultiPartial`, uses the strict window, so it is stronger than the constructors' checks at `audio_types.h:163-182` and `203-235`; `ValidMultiPaxelAsWritten` and `ValidPartialAsWritten` are those checks, and `MultiPaxelOverrunIsLast` and `PartialOverrunIsLast` show that the two differ only in the last paxel.
- EnvelopeSweep.Advance: the range asserts on each natural phase (`partial_generator.cpp:248`, `299` and `322`) are not failures of the model, because `naturalPhase` is a parameter; they hold whenever it satisfies `PhaseFnInRange`, which the lemmas that need the range take as a precondition (`PhaseStepSpec`, `NaturalPhasesInRange`). For a `naturalPhase` outside [0, 2*pi) the model continues where the source aborts.
- StageFill.PhaseStepSpec: the range assert at `partial_generator.cpp:322` is stated only under `PhaseFnInRange`, as for `Advance` above.
- PhaseCorrection.CorrectTo: uses the corrected `CoherenceCompensation` (the third finding), where the source at line 406 calls the `fmod` version; the two agree whenever both phases are non-negative (`CompensationAgreesOnNonNegative`), which the source's own range asserts guarantee for the phases it reaches.
- EnvelopeSweep.NextTarget: after the last stage it returns the old position, where the source reads the time iterator past its end (`partial_generator.cpp:341`); the value is never read, because an exhausted envelope only holds its level (`ExhaustedIgnoresTarget`).
- EnvelopeSweep.SweepCovers: requires envelopes the sweep can follow (`Followable`): exactly one time per stage and no zero-sample stage. The envelope constructor also accepts extra times (`envelope_types.h:106-108`) and zero times; on those the model fails with `ReadPastLevels` or `EmptyStage` (`ExtraTimeAborts`, `ZeroStageAborts`) where the source reads past the levels or runs past the set.
- WavWriter.Quantise: the cast of a double outside the int32 range is undefined in C++, so callers must provide values that fit (`FitsInt32`).
- The older `WavWriter.cpp` float conversion lacks the sign assert of the newer one; both compute the same bytes and are modelled by the same members.

## Findings

| source | as written | input that shows it | evidently intended | confidence | as-written member | corrected member |
|---|---|---|---|---|---|---|
| audio-rendering/include/audio_types.h:124-125 | the paxel invariant allows `endSample == durationSamples`, but the renderer (`PaxelGenerator.cpp:75,79`) writes `samples[endSample]` into a buffer of `durationSamples` elements | durationSamples 1, startSample 0, endSample 1 | `endSample < durationSamples` | not executed | PaxelRender.WindowOverrunsBuffer | PaxelRender.StrictWindowFits |
| audio-rendering/src/physical_envelope_generator.cpp:229-231 | the interpolated count starts from the forward point's count, so it lies above the forward count its own assert at 237 bounds it by | counts 1.0 at sample 0 and 2.0 at sample 2, point at sample 1: 2.5 | start from the backward count: 1.5 | not executed | CycleInterpolation.HalfwayOvershoots | CycleInterpolation.InterpolateBetween |
| audio-rendering/include/AudioHelpers.h:21-34 | `fmod` keeps the sign of a negative phase, so the wrapped difference can leave [-pi, pi] and the assert at 34 fails | source -5.5, target 6.0 | reduce both phases into [0, 2*pi) first | not executed | AudioHelpers.NegativePhaseBreaksAssert | AudioHelpers.CompensationAligns |
| audio-rendering/src/partial_generator.cpp:230-234 | the next amplitude target adds the time of the stage just completed before the iterator moves on, unlike the frequency pass at 336-341 | levels 0, 0.5, 1 with times 48000, 24000 samples: the entry at 72000 gets 0.75 instead of 1 | add the next stage's time | not executed | EnvelopeSweep.AmplitudeScheduleAsWritten | EnvelopeSweep.AmplitudeScheduleCorrected |
| audio-rendering/src/partial_generator.cpp:292-333 | the entry ending a frequency stage takes its natural-phase step twice; the second step rewrites its end phase but not the already set start phase of the next entry | frequency levels 1, 1, 2 with one-sample stages, natural phase (f1 + f2) / 8: entry 1 ends at 0.375, entry 2 starts at 0.25 | one step per entry over the final frequencies, so the phases link | not executed | PhaseChain.StalePhaseAsWritten | PhaseChain.NaturalPhasesLinked |
