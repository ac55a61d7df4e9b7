/** The natural phases of pass 1. In the source the phase step of an entry
    runs whenever its frequency values are written, so the entry at which a
    frequency stage ends takes its step twice: once when the stage ends
    (with its held level) and again as the first entry of the next stage
    (with the new gradient). The second step rewrites the end phase but may
    not rewrite the next entry's start phase, which is no longer unset, and
    the two drift apart. The corrected form here takes exactly one step per
    entry, in order, over the finished frequency lane. */
module PhaseChain {
  import opened Wrappers
  import opened AudioTypes
  import opened PaxelBuilder
  import opened StageFill
  import opened EnvelopeSweep

  /** The phase steps of entries `i..` in order. */
  function ChainFrom(ph: Lane, fr: Lane, durs: seq<nat>, i: nat, np: PhaseFn): (r: Lane)
    requires Sized(ph, |durs|) && Sized(fr, |durs|) && i <= |durs|
    ensures Sized(r, |durs|)
    decreases |durs| - i
  {
    if i == |durs| then ph else ChainFrom(PhaseStep(ph, fr, durs, i, np), fr, durs, i + 1, np)
  }

  /** The corrected phases of pass 1: the preset start phases, then one
      natural-phase step per entry over the final frequency values. */
  function NaturalPhases(fr: Lane, presets: seq<real>, durs: seq<nat>, np: PhaseFn): (r: Lane)
    requires Sized(fr, |durs|) && |presets| == |durs|
    ensures Sized(r, |durs|)
  {
    ChainFrom(Lane(presets, UnsetLane(|durs|).end), fr, durs, 0, np)
  }

  /** Steps from `i` on leave every earlier entry and the start phase of
      entry `i` alone. */
  lemma {:induction false} ChainFrame(ph: Lane, fr: Lane, durs: seq<nat>, i: nat, np: PhaseFn)
    requires Sized(ph, |durs|) && Sized(fr, |durs|) && i <= |durs|
    ensures var r := ChainFrom(ph, fr, durs, i, np);
            && (forall j :: 0 <= j < i ==> r.start[j] == ph.start[j] && r.end[j] == ph.end[j])
            && (i < |durs| ==> r.start[i] == ph.start[i])
    decreases |durs| - i
  {
    if i < |durs| {
      var t1 := PhaseStep(ph, fr, durs, i, np);
      PhaseStepSpec(ph, fr, durs, i, np);
      ChainFrame(t1, fr, durs, i + 1, np);
    }
  }

  /** Every end phase from `i` on is the natural phase reached from that
      entry's own final start phase over its own final frequencies. */
  lemma {:induction false} ChainEnds(ph: Lane, fr: Lane, durs: seq<nat>, i: nat, np: PhaseFn)
    requires Sized(ph, |durs|) && Sized(fr, |durs|) && i <= |durs|
    ensures var r := ChainFrom(ph, fr, durs, i, np);
            forall j :: i <= j < |durs| ==> r.end[j] == np(r.start[j], fr.start[j], fr.end[j], durs[j])
    decreases |durs| - i
  {
    if i < |durs| {
      var t1 := PhaseStep(ph, fr, durs, i, np);
      PhaseStepSpec(ph, fr, durs, i, np);
      ChainEnds(t1, fr, durs, i + 1, np);
      ChainFrame(t1, fr, durs, i + 1, np);
    }
  }

  /** Every start phase after `i` is the end phase before it, unless it was
      already set when the steps began. */
  lemma {:induction false} ChainLinks(ph: Lane, fr: Lane, durs: seq<nat>, i: nat, np: PhaseFn)
    requires Sized(ph, |durs|) && Sized(fr, |durs|) && i <= |durs|
    ensures var r := ChainFrom(ph, fr, durs, i, np);
            forall k :: i < k < |durs| ==>
              r.start[k] == if ph.start[k] == NO_VALUE_DOUBLE then r.end[k - 1] else ph.start[k]
    decreases |durs| - i
  {
    if i < |durs| {
      var t1 := PhaseStep(ph, fr, durs, i, np);
      PhaseStepSpec(ph, fr, durs, i, np);
      ChainLinks(t1, fr, durs, i + 1, np);
      ChainFrame(t1, fr, durs, i + 1, np);
    }
  }

  /** The corrected phases are continuous: the first entry starts on its
      preset, every later entry starts on its preset when it has one and on
      the end phase before it otherwise, and every end phase is the natural
      phase over the entry's own frequencies. */
  lemma NaturalPhasesLinked(fr: Lane, presets: seq<real>, durs: seq<nat>, np: PhaseFn)
    requires Sized(fr, |durs|) && |presets| == |durs|
    ensures var r := NaturalPhases(fr, presets, durs, np);
            && (|durs| > 0 ==> r.start[0] == presets[0])
            && (forall k :: 0 < k < |durs| ==>
                  r.start[k] == if presets[k] == NO_VALUE_DOUBLE then r.end[k - 1] else presets[k])
            && (forall j :: 0 <= j < |durs| ==> r.end[j] == np(r.start[j], fr.start[j], fr.end[j], durs[j]))
  {
    var ph := Lane(presets, UnsetLane(|durs|).end);
    ChainFrame(ph, fr, durs, 0, np);
    ChainLinks(ph, fr, durs, 0, np);
    ChainEnds(ph, fr, durs, 0, np);
  }

  /** When the natural phase always lands in [0, 2*pi) and the preset phases
      do too, every corrected phase is in that range. */
  lemma NaturalPhasesInRange(fr: Lane, presets: seq<real>, durs: seq<nat>, np: PhaseFn)
    requires Sized(fr, |durs|) && |presets| == |durs| && |durs| > 0
    requires PhaseFnInRange(np) && 0.0 <= presets[0] < TWO_PI
    requires forall k :: 0 <= k < |presets| && presets[k] != NO_VALUE_DOUBLE ==> 0.0 <= presets[k] < TWO_PI
    ensures var r := NaturalPhases(fr, presets, durs, np);
            forall j :: 0 <= j < |durs| ==> 0.0 <= r.start[j] < TWO_PI && 0.0 <= r.end[j] < TWO_PI
  {
    NaturalPhasesLinked(fr, presets, durs, np);
    var r := NaturalPhases(fr, presets, durs, np);
    forall j | 0 <= j < |durs| ensures 0.0 <= r.end[j] < TWO_PI {
      var a, b, c, d := r.start[j], fr.start[j], fr.end[j], durs[j];
      assert 0.0 <= np(a, b, c, d) < TWO_PI;
      assert r.end[j] == np(a, b, c, d);
    }
  }

  /** The source's interleaving on a two-stage frequency envelope (1 Hz,
      1 Hz, 2 Hz over one sample each) with only the first phase preset: the
      end phase of entry 1 is recomputed for the rising stage but the start
      phase of entry 2 keeps the value from the held stage before. Any
      natural-phase function that depends on the end frequency shows it;
      here the mean frequency over eight. */
  lemma StalePhaseAsWritten()
    ensures var pos := [0, 1, 2];
            var np: PhaseFn := (s, a, b, d) => (a + b) / 8.0;
            var w := Sweep(pos, Durations(pos, 1), [0.0, NO_VALUE_DOUBLE, NO_VALUE_DOUBLE],
                           EnvelopeInput([0.5], []), EnvelopeInput([1.0, 1.0, 2.0], [1, 1]), 2, SameTime, np);
            && w.Success?
            && w.value.phase.end[1] == 0.375
            && w.value.phase.start[2] == 0.25
  {
  }

  /** The corrected phases for the same frequency values link entry 1 to
      entry 2. */
  lemma StalePhaseCorrected()
    ensures var np: PhaseFn := (s, a, b, d) => (a + b) / 8.0;
            var r := NaturalPhases(Lane([1.0, 1.0, 2.0], [1.0, 2.0, 2.0]), [0.0, NO_VALUE_DOUBLE, NO_VALUE_DOUBLE], [1, 1, 1], np);
            r.end[1] == 0.375 && r.start[2] == 0.375
  {
  }
}
