/** Pass 1 of the grid mapper: durations, and the fill of the amplitude and
    frequency "fenceposts". One stage of an envelope runs from the entry of
    the previous envelope point to the entry of the current one; every
    boundary inside it gets the linearly interpolated value, written as the
    end value of the paxel before it and the start value of the paxel after
    it. The frequency fill also writes the natural phase reached at each
    boundary; `naturalPhase` is not part of this model and is a parameter.

    The builders of the ordered set are held here column by column: one
    `Lane` of start and end values per quantity, indexed like the set. */
module StageFill {
  import opened AudioTypes
  import opened PaxelBuilder

  /** Positions strictly increase along the ordered set. */
  predicate Increasing(pos: seq<nat>) {
    forall i, j :: 0 <= i < j < |pos| ==> pos[i] < pos[j]
  }

  function PositionsOf(es: seq<Entry>): (r: seq<nat>)
    ensures |r| == |es|
    ensures forall i :: 0 <= i < |es| ==> r[i] == es[i].position
    ensures Ordered(es) ==> Increasing(r)
  {
    seq(|es|, i requires 0 <= i < |es| => es[i].position)
  }

  /** The duration of every entry: the gap to the next entry, or a whole grid
      cell for the last one. */
  function Durations(pos: seq<nat>, g: nat): (r: seq<nat>)
    requires Increasing(pos)
    ensures |r| == |pos|
  {
    seq(|pos|, i requires 0 <= i < |pos| => if i + 1 < |pos| then pos[i + 1] - pos[i] else g)
  }

  /** Every entry but the last lasts exactly up to the next entry. */
  predicate GapDurations(pos: seq<nat>, durs: seq<nat>)
    requires |durs| == |pos|
  {
    forall i :: 0 <= i < |pos| - 1 ==> pos[i] + durs[i] == pos[i + 1]
  }

  /** The durations tile the partial: each entry ends where the next begins,
      the last lasts a whole cell, and all are positive when the cell is. */
  lemma DurationsTile(pos: seq<nat>, g: nat)
    requires Increasing(pos)
    ensures var d := Durations(pos, g);
            && GapDurations(pos, d)
            && (|pos| > 0 ==> d[|pos| - 1] == g)
            && (g > 0 ==> forall i :: 0 <= i < |d| ==> d[i] > 0)
  {
    var d := Durations(pos, g);
    forall i | 0 <= i < |d| && g > 0 ensures d[i] > 0 {
      if i + 1 < |pos| {
        assert pos[i] < pos[i + 1];
      }
    }
  }

  /** Total length of the paxels from entry `i` up to, not including, `j`. */
  function SpanLength(durs: seq<nat>, i: nat, j: nat): nat
    requires i <= j <= |durs|
    decreases j - i
  {
    if i == j then 0 else durs[i] + SpanLength(durs, i + 1, j)
  }

  /** The durations telescope: the paxels between two entries cover exactly
      the distance between their positions. */
  lemma {:induction false} DurationsTelescope(pos: seq<nat>, durs: seq<nat>, i: nat, j: nat)
    requires |durs| == |pos| && GapDurations(pos, durs) && i <= j < |pos|
    ensures pos[i] + SpanLength(durs, i, j) == pos[j]
    decreases j - i
  {
    if i < j {
      DurationsTelescope(pos, durs, i + 1, j);
    }
  }

  /** The start and end values of one quantity, entry by entry. */
  datatype Lane = Lane(start: seq<real>, end: seq<real>)

  predicate Sized(l: Lane, n: nat) {
    |l.start| == n && |l.end| == n
  }

  /** A lane of unset builder fields. */
  function UnsetLane(n: nat): (r: Lane)
    ensures Sized(r, n)
    ensures forall i :: 0 <= i < n ==> r.start[i] == NO_VALUE_DOUBLE && r.end[i] == NO_VALUE_DOUBLE
  {
    Lane(seq(n, i => NO_VALUE_DOUBLE), seq(n, i => NO_VALUE_DOUBLE))
  }

  /** A quantity being filled (`level`) and the phases a frequency fill
      writes alongside it. */
  datatype Track = Track(level: Lane, phase: Lane)

  predicate TrackSized(t: Track, n: nat) {
    Sized(t.level, n) && Sized(t.phase, n)
  }

  datatype Quantity = Amplitude | Frequency

  /** The `naturalPhase` helper: start phase, start and end frequency and
      duration to the phase reached at the end of a paxel. */
  type PhaseFn = (real, real, real, nat) -> real

  /** What the source asserts of every natural phase it computes. */
  ghost predicate PhaseFnInRange(np: PhaseFn) {
    forall a: real, b: real, c: real, d: nat :: 0.0 <= np(a, b, c, d) < TWO_PI
  }

  /** The natural phase reached at the end of entry `i` becomes its end
      phase, and the next entry's start phase unless that is already set. */
  function PhaseStep(ph: Lane, fr: Lane, durs: seq<nat>, i: nat, np: PhaseFn): (r: Lane)
    requires Sized(ph, |durs|) && Sized(fr, |durs|) && i < |durs|
    ensures Sized(r, |durs|)
  {
    var v := np(ph.start[i], fr.start[i], fr.end[i], durs[i]);
    Lane(if i + 1 < |durs| && ph.start[i + 1] == NO_VALUE_DOUBLE then ph.start[i + 1 := v] else ph.start,
         ph.end[i := v])
  }

  /** The phase step taken after a write of the frequency lane. */
  function Phases(t: Track, l: Lane, durs: seq<nat>, i: nat, q: Quantity, np: PhaseFn): (r: Lane)
    requires TrackSized(t, |durs|) && Sized(l, |durs|) && i < |durs|
    ensures Sized(r, |durs|)
  {
    if q == Frequency then PhaseStep(t.phase, l, durs, i, np) else t.phase
  }

  /** Entry `i` holds the level `v` from start to end (the current point of
      an envelope, or every point once the envelope has run out). */
  function Hold(t: Track, durs: seq<nat>, i: nat, v: real, q: Quantity, np: PhaseFn): (r: Track)
    requires TrackSized(t, |durs|) && i < |durs|
    ensures TrackSized(r, |durs|)
  {
    var l := Lane(t.level.start[i := v], t.level.end[i := v]);
    Track(l, Phases(t, l, durs, i, q, np))
  }

  /** One turn of the inner fill loop: the boundary after entry `i` gets the
      start value plus the duration times the gradient, on both sides. */
  function Step(t: Track, durs: seq<nat>, i: nat, grad: real, q: Quantity, np: PhaseFn): (r: Track)
    requires TrackSized(t, |durs|) && i + 1 < |durs|
    ensures TrackSized(r, |durs|)
  {
    var b := t.level.start[i] + durs[i] as real * grad;
    var l := Lane(t.level.start[i + 1 := b], t.level.end[i := b]);
    Track(l, Phases(t, l, durs, i, q, np))
  }

  /** The inner fill loop from entry `i` until the boundary before `hi`. */
  function Run(t: Track, durs: seq<nat>, i: nat, hi: nat, grad: real, q: Quantity, np: PhaseFn): (r: Track)
    requires TrackSized(t, |durs|) && i < hi < |durs|
    ensures TrackSized(r, |durs|)
    decreases hi - i
  {
    var t1 := Step(t, durs, i, grad, q, np);
    if i + 1 == hi then t1 else Run(t1, durs, i + 1, hi, grad, q, np)
  }

  /** The gradient of a stage, per sample. */
  function Gradient(pos: seq<nat>, lo: nat, hi: nat, from: real, to: real): real
    requires lo < hi < |pos| && pos[lo] < pos[hi]
  {
    (to - from) / (pos[hi] - pos[lo]) as real
  }

  /** The fill loop of a stage, after the start of `lo` is set to `from`. */
  function StageRun(t: Track, pos: seq<nat>, durs: seq<nat>, lo: nat, hi: nat, from: real, to: real,
                    q: Quantity, np: PhaseFn): (r: Track)
    requires |pos| == |durs| && TrackSized(t, |durs|)
    requires lo < hi < |pos| && pos[lo] < pos[hi]
    ensures TrackSized(r, |durs|)
  {
    Run(Track(Lane(t.level.start[lo := from], t.level.end), t.phase), durs, lo, hi, Gradient(pos, lo, hi, from, to), q, np)
  }

  /** A complete stage from entry `lo` (previous envelope point, level
      `from`) to entry `hi` (current point, level `to`): the fill loop, the
      exact level at the final boundary, and the hold of the current entry. */
  function MatchStage(t: Track, pos: seq<nat>, durs: seq<nat>, lo: nat, hi: nat, from: real, to: real,
                      q: Quantity, np: PhaseFn): (r: Track)
    requires |pos| == |durs| && TrackSized(t, |durs|)
    requires lo < hi < |pos| && pos[lo] < pos[hi]
    ensures TrackSized(r, |durs|)
  {
    var t2 := StageRun(t, pos, durs, lo, hi, from, to, q, np);
    var t3 := Track(Lane(t2.level.start, t2.level.end[hi - 1 := to]), t2.phase);
    Hold(t3, durs, hi, to, q, np)
  }

  /** The level reached after `d` samples of a stage starting at `from`. */
  function Linear(from: real, grad: real, d: int): real {
    from + d as real * grad
  }

  /** Entries `a..b` join: each one ends on the value the next starts with. */
  predicate Joined(l: Lane, a: nat, b: nat)
    requires b < |l.start| && |l.end| == |l.start|
  {
    forall j :: a <= j < b ==> l.end[j] == l.start[j + 1]
  }

  /** Entries `a..b` start on the straight line from entry `lo`. */
  predicate OnLine(l: Lane, pos: seq<nat>, lo: nat, from: real, grad: real, a: nat, b: nat)
    requires lo <= a && b < |pos| && |l.start| == |pos|
  {
    forall j :: a <= j <= b ==> l.start[j] == Linear(from, grad, pos[j] as int - pos[lo])
  }

  /** Outside entries `a..b` the lane `r` holds the values of `l`. */
  predicate KeptOutside(l: Lane, r: Lane, a: nat, b: nat)
    requires Sized(l, |l.start|) && Sized(r, |l.start|)
  {
    forall j :: 0 <= j < |l.start| && (j < a || j > b) ==> r.start[j] == l.start[j] && r.end[j] == l.end[j]
  }

  /** Over boundaries `a..b`, each start phase after a boundary is the end
      phase before it, unless `before` already held a value there. */
  predicate PhaseLinked(r: Lane, before: Lane, a: nat, b: nat)
    requires b < |r.start| && |r.end| == |r.start| && |before.start| == |r.start|
  {
    && (forall k :: a < k <= b && before.start[k] == NO_VALUE_DOUBLE ==> r.start[k] == r.end[k - 1])
    && (forall k :: a < k <= b && before.start[k] != NO_VALUE_DOUBLE ==> r.start[k] == before.start[k])
  }

  /** A phase step writes the end phase of `i` and at most the start phase
      of the next entry, which keeps any value it already had; when the
      natural phase stays in [0, 2*pi), the phase it writes meets the
      source's range assert. */
  lemma PhaseStepSpec(ph: Lane, fr: Lane, durs: seq<nat>, i: nat, np: PhaseFn)
    requires Sized(ph, |durs|) && Sized(fr, |durs|) && i < |durs|
    ensures var r := PhaseStep(ph, fr, durs, i, np);
            && r.end[i] == np(ph.start[i], fr.start[i], fr.end[i], durs[i])
            && (PhaseFnInRange(np) ==> 0.0 <= r.end[i] < TWO_PI)
            && r.start[i] == ph.start[i]
            && (i + 1 < |durs| ==> r.start[i + 1] == if ph.start[i + 1] == NO_VALUE_DOUBLE then r.end[i] else ph.start[i + 1])
            && KeptOutside(ph, r, i, i + 1)
            && (i + 1 < |durs| ==> r.end[i + 1] == ph.end[i + 1])
  {
    if PhaseFnInRange(np) {
      var a, b, c, d := ph.start[i], fr.start[i], fr.end[i], durs[i];
      assert 0.0 <= np(a, b, c, d) < TWO_PI;
    }
  }

  /** One turn of the fill loop writes the boundary value to both sides of
      the boundary after entry `i` and nothing else of the level. */
  lemma StepSpec(t: Track, durs: seq<nat>, i: nat, grad: real, q: Quantity, np: PhaseFn)
    requires TrackSized(t, |durs|) && i + 1 < |durs|
    ensures var r := Step(t, durs, i, grad, q, np);
            var b := t.level.start[i] + durs[i] as real * grad;
            && r.level.end[i] == b
            && r.level.start[i + 1] == b
            && r.level.start[i] == t.level.start[i]
            && r.level.end[i + 1] == t.level.end[i + 1]
            && KeptOutside(t.level, r.level, i, i + 1)
            && KeptOutside(t.phase, r.phase, i, i + 1)
            && (q == Amplitude ==> r.phase == t.phase)
  {
  }

  /** The inner fill loop leaves the level alone outside entries `i..hi`,
      keeps the start of `i` and the end of `hi`, and changes phases only
      inside `i..hi`. */
  lemma {:induction false} RunFrame(t: Track, durs: seq<nat>, i: nat, hi: nat, grad: real, q: Quantity, np: PhaseFn)
    requires TrackSized(t, |durs|) && i < hi < |durs|
    ensures var r := Run(t, durs, i, hi, grad, q, np);
            && KeptOutside(t.level, r.level, i, hi)
            && r.level.start[i] == t.level.start[i]
            && r.level.end[hi] == t.level.end[hi]
            && KeptOutside(t.phase, r.phase, i, hi)
            && r.phase.start[i] == t.phase.start[i]
            && (q == Amplitude ==> r.phase == t.phase)
    decreases hi - i
  {
    StepSpec(t, durs, i, grad, q, np);
    if i + 1 < hi {
      RunFrame(Step(t, durs, i, grad, q, np), durs, i + 1, hi, grad, q, np);
    }
  }

  /** A fill keeps the level values just in front of it. */
  lemma RunLevelEdges(t: Track, durs: seq<nat>, i: nat, hi: nat, grad: real, q: Quantity, np: PhaseFn)
    requires TrackSized(t, |durs|) && 0 < i < hi < |durs|
    ensures var r := Run(t, durs, i, hi, grad, q, np);
            && r.level.start[i] == t.level.start[i]
            && r.level.start[i - 1] == t.level.start[i - 1] && r.level.end[i - 1] == t.level.end[i - 1]
  {
    RunFrame(t, durs, i, hi, grad, q, np);
  }

  /** A fill keeps the phases on either side of the boundary in front of it. */
  lemma RunPhaseEdges(t: Track, durs: seq<nat>, i: nat, hi: nat, grad: real, np: PhaseFn)
    requires TrackSized(t, |durs|) && 0 < i < hi < |durs|
    ensures var r := Run(t, durs, i, hi, grad, Frequency, np);
            r.phase.start[i] == t.phase.start[i] && r.phase.end[i - 1] == t.phase.end[i - 1]
  {
    RunFrame(t, durs, i, hi, grad, Frequency, np);
  }

  /** The inner fill loop writes the same value to both sides of every
      boundary it passes. */
  lemma {:induction false} RunJoins(t: Track, durs: seq<nat>, i: nat, hi: nat, grad: real, q: Quantity, np: PhaseFn)
    requires TrackSized(t, |durs|) && i < hi < |durs|
    ensures Joined(Run(t, durs, i, hi, grad, q, np).level, i, hi)
    decreases hi - i
  {
    var t1 := Step(t, durs, i, grad, q, np);
    StepSpec(t, durs, i, grad, q, np);
    if i + 1 < hi {
      RunJoins(t1, durs, i + 1, hi, grad, q, np);
      RunLevelEdges(t1, durs, i + 1, hi, grad, q, np);
    }
  }

  /** One more paxel of `d` samples moves the line on by `d` gradients. */
  lemma LinearStep(from: real, grad: real, d0: int, d: nat)
    ensures Linear(from, grad, d0) + d as real * grad == Linear(from, grad, d0 + d)
  {
    assert (d0 + d) as real * grad == d0 as real * grad + d as real * grad;
  }

  lemma OnLineExtend(l: Lane, pos: seq<nat>, lo: nat, from: real, grad: real, i: nat, hi: nat)
    requires lo <= i < hi < |pos| && |l.start| == |pos|
    requires l.start[i] == Linear(from, grad, pos[i] as int - pos[lo])
    requires i + 1 < hi ==> OnLine(l, pos, lo, from, grad, i + 1, hi)
    requires l.start[i + 1] == Linear(from, grad, pos[i + 1] as int - pos[lo])
    ensures OnLine(l, pos, lo, from, grad, i, hi)
  {
  }

  /** The values the inner fill loop writes lie on the straight line from
      entry `lo`: the start of the fill plus the gradient per sample. */
  lemma {:induction false} RunOnLine(t: Track, pos: seq<nat>, durs: seq<nat>, lo: nat, i: nat, hi: nat,
                                     grad: real, from: real, q: Quantity, np: PhaseFn)
    requires |pos| == |durs| && TrackSized(t, |durs|) && lo <= i < hi < |durs|
    requires GapDurations(pos, durs)
    requires t.level.start[i] == Linear(from, grad, pos[i] as int - pos[lo])
    ensures OnLine(Run(t, durs, i, hi, grad, q, np).level, pos, lo, from, grad, i, hi)
    decreases hi - i
  {
    var t1 := Step(t, durs, i, grad, q, np);
    var r := Run(t, durs, i, hi, grad, q, np);
    assert t1.level.start[i + 1] == Linear(from, grad, pos[i + 1] as int - pos[lo]) by {
      StepSpec(t, durs, i, grad, q, np);
      assert pos[i] + durs[i] == pos[i + 1];
      LinearStep(from, grad, pos[i] as int - pos[lo], durs[i]);
    }
    assert r.level.start[i] == t.level.start[i] by {
      RunFrame(t, durs, i, hi, grad, q, np);
    }
    if i + 1 < hi {
      RunOnLine(t1, pos, durs, lo, i + 1, hi, grad, from, q, np);
    } else {
      assert r == t1;
    }
    OnLineExtend(r.level, pos, lo, from, grad, i, hi);
  }

  /** Linking one more boundary in front of a linked run. */
  lemma PhaseLinkedExtend(r: Lane, b0: Lane, b1: Lane, i: nat, hi: nat)
    requires i < hi < |r.start| && |r.end| == |r.start| && |b0.start| == |r.start| && |b1.start| == |r.start|
    requires i + 1 < hi ==> PhaseLinked(r, b1, i + 1, hi)
    requires forall k :: i + 1 < k < |r.start| ==> b1.start[k] == b0.start[k]
    requires r.start[i + 1] == if b0.start[i + 1] == NO_VALUE_DOUBLE then r.end[i] else b0.start[i + 1]
    ensures PhaseLinked(r, b0, i, hi)
  {
  }

  /** One turn of the frequency fill links the phases across its boundary
      unless the start phase after it was preset, and sets no later one. */
  lemma StepPhases(t: Track, durs: seq<nat>, i: nat, grad: real, np: PhaseFn)
    requires TrackSized(t, |durs|) && i + 1 < |durs|
    ensures var t1 := Step(t, durs, i, grad, Frequency, np);
            && t1.phase.start[i + 1] == (if t.phase.start[i + 1] == NO_VALUE_DOUBLE then t1.phase.end[i] else t.phase.start[i + 1])
            && forall k :: i + 1 < k < |durs| ==> t1.phase.start[k] == t.phase.start[k]
  {
  }

  /** The inner fill loop links each boundary phase it passes: the start
      phase after it is the end phase before it, unless it was preset. */
  lemma {:induction false} RunPhases(t: Track, durs: seq<nat>, i: nat, hi: nat, grad: real, np: PhaseFn)
    requires TrackSized(t, |durs|) && i < hi < |durs|
    ensures PhaseLinked(Run(t, durs, i, hi, grad, Frequency, np).phase, t.phase, i, hi)
    decreases hi - i
  {
    if i + 1 < hi {
      RunPhases(Step(t, durs, i, grad, Frequency, np), durs, i + 1, hi, grad, np);
    }
    RunPhasesStep(t, durs, i, hi, grad, np);
  }

  /** One turn in front of a linked rest of the loop keeps it linked. */
  lemma RunPhasesStep(t: Track, durs: seq<nat>, i: nat, hi: nat, grad: real, np: PhaseFn)
    requires TrackSized(t, |durs|) && i < hi < |durs|
    requires var t1 := Step(t, durs, i, grad, Frequency, np);
             i + 1 < hi ==> PhaseLinked(Run(t1, durs, i + 1, hi, grad, Frequency, np).phase, t1.phase, i + 1, hi)
    ensures PhaseLinked(Run(t, durs, i, hi, grad, Frequency, np).phase, t.phase, i, hi)
  {
    var t1 := Step(t, durs, i, grad, Frequency, np);
    var r := Run(t, durs, i, hi, grad, Frequency, np);
    StepPhases(t, durs, i, grad, np);
    if i + 1 < hi {
      assert r == Run(t1, durs, i + 1, hi, grad, Frequency, np);
      RunPhaseEdges(t1, durs, i + 1, hi, grad, np);
      PhaseLinkedExtend(r.phase, t.phase, t1.phase, i, hi);
    } else {
      assert r == t1;
      PhaseLinkedExtend(r.phase, t.phase, t1.phase, i, hi);
    }
  }

  /** After its fill loop a stage only pins the level at its last two
      boundaries and takes the phase step of the current entry. */
  lemma MatchStageParts(t: Track, pos: seq<nat>, durs: seq<nat>, lo: nat, hi: nat, from: real, to: real,
                        q: Quantity, np: PhaseFn)
    requires |pos| == |durs| && TrackSized(t, |durs|)
    requires lo < hi < |pos| && pos[lo] < pos[hi]
    ensures var r := MatchStage(t, pos, durs, lo, hi, from, to, q, np);
            var t2 := StageRun(t, pos, durs, lo, hi, from, to, q, np);
            && r.level.start == t2.level.start[hi := to]
            && r.level.end == t2.level.end[hi - 1 := to][hi := to]
            && r.phase == if q == Frequency then PhaseStep(t2.phase, r.level, durs, hi, np) else t2.phase
  {
  }

  /** A stage writes its two envelope levels exactly: `from` at the start of
      the previous point's entry, `to` at both sides of the final boundary
      and throughout the current entry. */
  lemma MatchStageEnds(t: Track, pos: seq<nat>, durs: seq<nat>, lo: nat, hi: nat, from: real, to: real,
                       q: Quantity, np: PhaseFn)
    requires |pos| == |durs| && TrackSized(t, |durs|)
    requires lo < hi < |pos| && pos[lo] < pos[hi]
    ensures var r := MatchStage(t, pos, durs, lo, hi, from, to, q, np);
            && r.level.start[lo] == from
            && r.level.end[hi - 1] == to
            && r.level.start[hi] == to && r.level.end[hi] == to
  {
    MatchStageParts(t, pos, durs, lo, hi, from, to, q, np);
    RunFrame(Track(Lane(t.level.start[lo := from], t.level.end), t.phase), durs, lo, hi,
             Gradient(pos, lo, hi, from, to), q, np);
  }

  /** Every boundary of a stage joins: the end value before it is the start
      value after it, including the final boundary at the current entry. */
  lemma MatchStageJoins(t: Track, pos: seq<nat>, durs: seq<nat>, lo: nat, hi: nat, from: real, to: real,
                        q: Quantity, np: PhaseFn)
    requires |pos| == |durs| && TrackSized(t, |durs|)
    requires lo < hi < |pos| && pos[lo] < pos[hi]
    ensures Joined(MatchStage(t, pos, durs, lo, hi, from, to, q, np).level, lo, hi)
  {
    MatchStageParts(t, pos, durs, lo, hi, from, to, q, np);
    RunJoins(Track(Lane(t.level.start[lo := from], t.level.end), t.phase), durs, lo, hi,
             Gradient(pos, lo, hi, from, to), q, np);
  }

  /** Every entry of a stage before the current one starts on the straight
      line from `from` at the previous point's position. */
  lemma MatchStageOnLine(t: Track, pos: seq<nat>, durs: seq<nat>, lo: nat, hi: nat, from: real, to: real,
                         q: Quantity, np: PhaseFn)
    requires |pos| == |durs| && TrackSized(t, |durs|) && GapDurations(pos, durs)
    requires lo < hi < |pos| && pos[lo] < pos[hi]
    ensures OnLine(MatchStage(t, pos, durs, lo, hi, from, to, q, np).level, pos, lo, from,
                   Gradient(pos, lo, hi, from, to), lo, hi - 1)
  {
    MatchStageParts(t, pos, durs, lo, hi, from, to, q, np);
    RunOnLine(Track(Lane(t.level.start[lo := from], t.level.end), t.phase), pos, durs, lo, lo, hi,
              Gradient(pos, lo, hi, from, to), from, q, np);
  }

  /** A stage changes the filled quantity only on entries `lo..hi`, a
      frequency stage changes phases only on entries `lo..hi+1`, and an
      amplitude stage changes no phase. */
  lemma MatchStageFrame(t: Track, pos: seq<nat>, durs: seq<nat>, lo: nat, hi: nat, from: real, to: real,
                        q: Quantity, np: PhaseFn)
    requires |pos| == |durs| && TrackSized(t, |durs|)
    requires lo < hi < |pos| && pos[lo] < pos[hi]
    ensures var r := MatchStage(t, pos, durs, lo, hi, from, to, q, np);
            && KeptOutside(t.level, r.level, lo, hi)
            && KeptOutside(t.phase, r.phase, lo, hi + 1)
            && (q == Amplitude ==> r.phase == t.phase)
  {
    MatchStageParts(t, pos, durs, lo, hi, from, to, q, np);
    var t2 := StageRun(t, pos, durs, lo, hi, from, to, q, np);
    RunFrame(Track(Lane(t.level.start[lo := from], t.level.end), t.phase), durs, lo, hi,
             Gradient(pos, lo, hi, from, to), q, np);
    if q == Frequency {
      var r := MatchStage(t, pos, durs, lo, hi, from, to, q, np);
      PhaseStepSpec(t2.phase, r.level, durs, hi, np);
    }
  }

  /** Each boundary phase of a frequency stage, up to the one after the
      current entry, is linked across the boundary unless it was preset. */
  lemma MatchStagePhases(t: Track, pos: seq<nat>, durs: seq<nat>, lo: nat, hi: nat, from: real, to: real,
                         np: PhaseFn)
    requires |pos| == |durs| && TrackSized(t, |durs|)
    requires lo < hi < |pos| && pos[lo] < pos[hi]
    ensures PhaseLinked(MatchStage(t, pos, durs, lo, hi, from, to, Frequency, np).phase, t.phase, lo,
                        if hi + 1 < |pos| then hi + 1 else hi)
  {
    MatchStageParts(t, pos, durs, lo, hi, from, to, Frequency, np);
    var t1 := Track(Lane(t.level.start[lo := from], t.level.end), t.phase);
    var t2 := StageRun(t, pos, durs, lo, hi, from, to, Frequency, np);
    var r := MatchStage(t, pos, durs, lo, hi, from, to, Frequency, np);
    RunPhases(t1, durs, lo, hi, Gradient(pos, lo, hi, from, to), np);
    RunFrame(t1, durs, lo, hi, Gradient(pos, lo, hi, from, to), Frequency, np);
    PhaseStepSpec(t2.phase, r.level, durs, hi, np);
  }

  /** Over exact arithmetic the line reaches the stage's level at the
      current point, so pinning the final boundary to it changes nothing. */
  lemma ExactFinalBoundary(from: real, to: real, a: nat, b: nat)
    requires a < b
    ensures Linear(from, (to - from) / (b - a) as real, b - a) == to
  {
  }

  /** A value on the line between two levels lies between them. */
  lemma LinearBetween(from: real, to: real, a: nat, b: nat, x: nat)
    requires a <= x <= b && a < b
    ensures var v := Linear(from, (to - from) / (b - a) as real, x - a);
            (from <= to ==> from <= v <= to) && (to <= from ==> to <= v <= from)
  {
    var k := (x - a) as real;
    var d := (b - a) as real;
    var t := k / d;
    FractionAtMostOne(k, d);
    assert Linear(from, (to - from) / d, x - a) == from + t * (to - from);
    FractionOf(t, to - from);
  }

  /** A fraction in [0, 1] of a span lies between zero and the span. */
  lemma FractionOf(t: real, w: real)
    requires 0.0 <= t <= 1.0
    ensures w >= 0.0 ==> 0.0 <= t * w <= w
    ensures w <= 0.0 ==> w <= t * w <= 0.0
  {
    assert (1.0 - t) * w == w - t * w;
  }

  /** Every value a stage writes, start or end, lies between its two levels. */
  lemma MatchStageBetween(t: Track, pos: seq<nat>, durs: seq<nat>, lo: nat, hi: nat, from: real, to: real,
                          q: Quantity, np: PhaseFn)
    requires |pos| == |durs| && TrackSized(t, |durs|) && GapDurations(pos, durs) && Increasing(pos)
    requires lo < hi < |pos| && pos[lo] < pos[hi]
    ensures var r := MatchStage(t, pos, durs, lo, hi, from, to, q, np);
            forall j :: lo <= j <= hi ==> Between(r.level.start[j], from, to) && Between(r.level.end[j], from, to)
  {
    var r := MatchStage(t, pos, durs, lo, hi, from, to, q, np);
    MatchStageOnLine(t, pos, durs, lo, hi, from, to, q, np);
    MatchStageJoins(t, pos, durs, lo, hi, from, to, q, np);
    MatchStageEnds(t, pos, durs, lo, hi, from, to, q, np);
    forall j | lo <= j <= hi ensures Between(r.level.start[j], from, to) {
      if j < hi {
        LinearBetween(from, to, pos[lo], pos[hi], pos[j]);
        assert r.level.start[j] == Linear(from, Gradient(pos, lo, hi, from, to), pos[j] as int - pos[lo]);
      }
    }
    forall j | lo <= j <= hi ensures Between(r.level.end[j], from, to) {
      if j < hi {
        assert r.level.end[j] == r.level.start[j + 1];
      }
    }
  }
}
