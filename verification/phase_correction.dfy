/** Pass 2 of the grid mapper: phase correction. Between each explicit phase
    coordinate and the coordinate before it, the natural end phases are
    shifted by a growing fraction of the one compensation that brings the
    natural phase at the coordinate onto the required phase; the boundary
    just before the coordinate is then set to the required phase exactly.
    Natural coordinates need no correction. `phaseMod` is a parameter. */
module PhaseCorrection {
  import opened Wrappers
  import opened AudioTypes
  import opened StageFill
  import opened EnvelopeSweep
  import opened AudioHelpers

  /** The `phaseMod` helper: wraps a phase into [0, 2*pi). */
  type PhaseModFn = real -> real

  ghost predicate PhaseModInRange(pm: PhaseModFn) {
    forall x: real :: 0.0 <= pm(x) < TWO_PI
  }

  /** A phase coordinate as pass 2 reads it: sample time, value, and whether
      it asks for the natural phase. */
  datatype Coordinate = Coordinate(time: nat, value: real, natural: bool)

  /** Where an assert of the pass fails, or where it would run off the set:
      fewer than two coordinates, no entries, a first start phase that is not
      the first coordinate's, a coordinate with no entry, an explicit
      coordinate whose entry does not hold its phase, an explicit coordinate
      on the same sample as the one before it, a boundary phase out of range,
      or a required phase of 2*pi. */
  datatype CorrectionError =
    | TooFewCoordinates
    | NoEntries
    | FirstPhaseNotPreset
    | CoordinateMissing
    | PhaseNotPreset
    | CoordinatesCoincide
    | BoundaryOutOfRange
    | TargetOutOfRange

  /** The part of the phase shift for `cum` of the `span` samples between
      two coordinates. */
  function Share(shift: real, cum: nat, span: nat): real
    requires span > 0
  {
    shift * cum as real / span as real
  }

  /** The inner loop from entry `p` until entry `c`: each boundary after `p`
      gets the natural end phase plus the share of `shift` for the time
      elapsed since the previous coordinate, on both sides. */
  function Spread(l: Lane, durs: seq<nat>, p: nat, c: nat, shift: real, span: nat, cum: nat, natural: real,
                  pm: PhaseModFn): (r: Result<Lane, CorrectionError>)
    requires Sized(l, |durs|) && p <= c < |durs| && span > 0
    ensures r.Success? ==> Sized(r.value, |durs|)
    decreases c - p
  {
    if p == c then Success(l)
    else
      var cum1 := cum + durs[p];
      var b := pm(l.end[p] + Share(shift, cum1, span));
      if !(b >= 0.0 && natural < TWO_PI) then Failure(BoundaryOutOfRange)
      else Spread(Lane(l.start[p + 1 := b], l.end[p := b]), durs, p + 1, c, shift, span, cum1, natural, pm)
  }

  /** The correction up to one explicit coordinate `cur`, starting from the
      entry `p` of the coordinate before it. On success it yields the
      corrected lane and the entry of `cur`. */
  function CorrectTo(l: Lane, pos: seq<nat>, durs: seq<nat>, p: nat, prev: Coordinate, cur: Coordinate,
                     pm: PhaseModFn): (r: Result<(Lane, nat), CorrectionError>)
    requires |pos| == |durs| && Sized(l, |pos|) && p < |pos|
    ensures r.Success? ==> Sized(r.value.0, |pos|) && p < r.value.1 < |pos| && pos[r.value.1] == cur.time
    ensures r.Failure? && Find(pos, cur.time).None? ==> r.error == CoordinateMissing
  {
    match Find(pos, cur.time)
    case None => Failure(CoordinateMissing)
    case Some(k) =>
      if l.start[k] != cur.value then Failure(PhaseNotPreset)
      else if k <= p || cur.time <= prev.time then Failure(CoordinatesCoincide)
      else
        var c := k - 1;
        var natural := l.end[c];
        var spread :- Spread(l, durs, p, c, CoherenceCompensation(natural, cur.value), cur.time - prev.time, 0,
                             natural, pm);
        if !(0.0 <= cur.value < TWO_PI) then Failure(TargetOutOfRange)
        else Success((Lane(spread.start, spread.end[c := cur.value]), k))
  }

  /** The outer loop over coordinates `ci..`, with `p` the entry of the
      coordinate before `ci` (`None` when a natural coordinate had none). */
  function CorrectFrom(l: Lane, pos: seq<nat>, durs: seq<nat>, cs: seq<Coordinate>, ci: nat, p: Option<nat>,
                       pm: PhaseModFn): (r: Result<Lane, CorrectionError>)
    requires |pos| == |durs| && Sized(l, |pos|) && 1 <= ci <= |cs|
    requires p.Some? ==> p.value < |pos|
    ensures r.Success? ==> Sized(r.value, |pos|)
    decreases |cs| - ci
  {
    if ci == |cs| then Success(l)
    else if cs[ci].natural then
      CorrectFrom(l, pos, durs, cs, ci + 1, Find(pos, cs[ci].time), pm)
    else match p
      case None => Failure(CoordinateMissing)
      case Some(q) =>
        var step :- CorrectTo(l, pos, durs, q, cs[ci - 1], cs[ci], pm);
        CorrectFrom(step.0, pos, durs, cs, ci + 1, Some(step.1), pm)
  }

  /** Pass 2 over the phases left by pass 1. */
  function CorrectPhases(l: Lane, pos: seq<nat>, durs: seq<nat>, cs: seq<Coordinate>, pm: PhaseModFn)
    : (r: Result<Lane, CorrectionError>)
    requires |pos| == |durs| && Sized(l, |pos|)
    ensures r.Success? ==> Sized(r.value, |pos|) && |cs| >= 2 && |pos| > 0 && l.start[0] == cs[0].value
    ensures |cs| < 2 ==> r == Failure(TooFewCoordinates)
  {
    if |cs| < 2 then Failure(TooFewCoordinates)
    else if |pos| == 0 then Failure(NoEntries)
    else if l.start[0] != cs[0].value then Failure(FirstPhaseNotPreset)
    else CorrectFrom(l, pos, durs, cs, 1, Some(0), pm)
  }

  /** The spread writes only the end phases of `p..c-1` and the start
      phases of `p+1..c`. */
  lemma {:induction false} SpreadFrame(l: Lane, durs: seq<nat>, p: nat, c: nat, shift: real, span: nat, cum: nat,
                                       natural: real, pm: PhaseModFn)
    requires Sized(l, |durs|) && p <= c < |durs| && span > 0
    requires Spread(l, durs, p, c, shift, span, cum, natural, pm).Success?
    ensures var r := Spread(l, durs, p, c, shift, span, cum, natural, pm).value;
            && (forall j :: 0 <= j < |durs| && (j <= p || j > c) ==> r.start[j] == l.start[j])
            && (forall j :: 0 <= j < |durs| && (j < p || j >= c) ==> r.end[j] == l.end[j])
    decreases c - p
  {
    if p < c {
      var cum1 := cum + durs[p];
      var b := pm(l.end[p] + Share(shift, cum1, span));
      SpreadFrame(Lane(l.start[p + 1 := b], l.end[p := b]), durs, p + 1, c, shift, span, cum1, natural, pm);
    }
  }

  /** Each boundary the spread passes gets one value on both sides, and that
      value is the natural end phase shifted by the share of `shift` for the
      time from `base` (the previous coordinate) to the boundary. */
  lemma {:induction false} SpreadValues(l: Lane, pos: seq<nat>, durs: seq<nat>, p: nat, c: nat, shift: real,
                                        span: nat, cum: nat, natural: real, pm: PhaseModFn, base: nat)
    requires |pos| == |durs| && GapDurations(pos, durs) && Increasing(pos)
    requires Sized(l, |durs|) && p <= c < |durs| && span > 0 && pos[p] == base + cum
    requires Spread(l, durs, p, c, shift, span, cum, natural, pm).Success?
    ensures var r := Spread(l, durs, p, c, shift, span, cum, natural, pm).value;
            forall j :: p <= j < c ==>
              && r.end[j] == r.start[j + 1]
              && r.end[j] == pm(l.end[j] + Share(shift, pos[j + 1] - base, span))
    decreases c - p
  {
    if p < c {
      var cum1 := cum + durs[p];
      var b := pm(l.end[p] + Share(shift, cum1, span));
      var l1 := Lane(l.start[p + 1 := b], l.end[p := b]);
      var r := Spread(l, durs, p, c, shift, span, cum, natural, pm).value;
      SpreadValues(l1, pos, durs, p + 1, c, shift, span, cum1, natural, pm, base);
      SpreadFrame(l1, durs, p + 1, c, shift, span, cum1, natural, pm);
      assert pos[p + 1] - base == cum1;
      assert r.end[p] == b && r.start[p + 1] == b;
    }
  }

  /** With `phaseMod` in range the spread never fails. */
  lemma {:induction false} SpreadSucceeds(l: Lane, durs: seq<nat>, p: nat, c: nat, shift: real, span: nat, cum: nat,
                                          natural: real, pm: PhaseModFn)
    requires Sized(l, |durs|) && p <= c < |durs| && span > 0
    requires PhaseModInRange(pm) && natural < TWO_PI
    ensures Spread(l, durs, p, c, shift, span, cum, natural, pm).Success?
    decreases c - p
  {
    if p < c {
      var cum1 := cum + durs[p];
      var x := l.end[p] + Share(shift, cum1, span);
      assert 0.0 <= pm(x);
      SpreadSucceeds(Lane(l.start[p + 1 := pm(x)], l.end[p := pm(x)]), durs, p + 1, c, shift, span, cum1, natural, pm);
    }
  }

  /** One explicit coordinate: every boundary from the previous coordinate's
      entry up to the coordinate's entry joins, the last one exactly on the
      required phase, and no other phase changes. */
  lemma CorrectToSpec(l: Lane, pos: seq<nat>, durs: seq<nat>, p: nat, prev: Coordinate, cur: Coordinate,
                      pm: PhaseModFn)
    requires |pos| == |durs| && Sized(l, |pos|) && p < |pos|
    requires CorrectTo(l, pos, durs, p, prev, cur, pm).Success?
    ensures var (r, k) := CorrectTo(l, pos, durs, p, prev, cur, pm).value;
            && (forall j :: p <= j < k ==> r.end[j] == r.start[j + 1])
            && r.end[k - 1] == cur.value && r.start[k] == cur.value
            && (forall j :: 0 <= j < |pos| && (j <= p || j >= k) ==> r.start[j] == l.start[j])
            && (forall j :: 0 <= j < |pos| && (j < p || j >= k) ==> r.end[j] == l.end[j])
  {
    var k := Find(pos, cur.time).value;
    var c := k - 1;
    var natural := l.end[c];
    var shift := CoherenceCompensation(natural, cur.value);
    var s := Spread(l, durs, p, c, shift, cur.time - prev.time, 0, natural, pm).value;
    SpreadFrame(l, durs, p, c, shift, cur.time - prev.time, 0, natural, pm);
    forall j | p <= j < c ensures s.end[j] == s.start[j + 1] {
      SpreadLinksAt(l, durs, p, c, shift, cur.time - prev.time, 0, natural, pm, j);
    }
  }

  /** The joins of the spread alone, without the values. */
  lemma {:induction false} SpreadLinksAt(l: Lane, durs: seq<nat>, p: nat, c: nat, shift: real, span: nat, cum: nat,
                                         natural: real, pm: PhaseModFn, j: nat)
    requires Sized(l, |durs|) && p <= j < c < |durs| && span > 0
    requires Spread(l, durs, p, c, shift, span, cum, natural, pm).Success?
    ensures var r := Spread(l, durs, p, c, shift, span, cum, natural, pm).value;
            r.end[j] == r.start[j + 1]
    decreases c - p
  {
    var cum1 := cum + durs[p];
    var b := pm(l.end[p] + Share(shift, cum1, span));
    var l1 := Lane(l.start[p + 1 := b], l.end[p := b]);
    if j == p {
      SpreadFrame(l1, durs, p + 1, c, shift, span, cum1, natural, pm);
    } else {
      SpreadLinksAt(l1, durs, p + 1, c, shift, span, cum1, natural, pm, j);
    }
  }

  /** Some coordinate from `ci` on asks for an explicit phase at `x`. */
  predicate ExplicitFrom(cs: seq<Coordinate>, ci: nat, x: nat) {
    exists i :: ci <= i < |cs| && !cs[i].natural && cs[i].time == x
  }

  /** Coordinates on distinct, increasing samples. */
  predicate StrictTimes(cs: seq<Coordinate>) {
    forall i, j :: 0 <= i < j < |cs| ==> cs[i].time < cs[j].time
  }

  /** Every coordinate has an entry. */
  predicate AllPresent(cs: seq<Coordinate>, pos: seq<nat>) {
    forall i :: 0 <= i < |cs| ==> cs[i].time in pos
  }

  /** Entry `k` starts on the phase entry `k - 1` ends with. */
  predicate LinkedAt(l: Lane, k: nat)
    requires 0 < k < |l.start| && |l.end| == |l.start|
  {
    l.end[k - 1] == l.start[k]
  }

  /** The state of the outer loop before coordinate `ci`: `p` is the entry of
      the coordinate before it, every boundary up to `p` joins, and after `p`
      only the entries of later explicit coordinates may still not join. */
  predicate Corrected(l: Lane, pos: seq<nat>, cs: seq<Coordinate>, ci: nat, p: nat)
    requires Sized(l, |pos|) && 1 <= ci <= |cs|
  {
    && p < |pos| && pos[p] == cs[ci - 1].time
    && (forall k :: 0 < k <= p && k < |pos| ==> LinkedAt(l, k))
    && (forall k :: p < k < |pos| && !ExplicitFrom(cs, ci, pos[k]) ==> LinkedAt(l, k))
  }

  /** Past coordinate `ci`, an entry later than it is explicit for `ci + 1`
      on exactly when it is for `ci` on. */
  lemma ExplicitFromNext(cs: seq<Coordinate>, ci: nat, x: nat)
    requires ci < |cs| && cs[ci].time != x
    ensures ExplicitFrom(cs, ci, x) <==> ExplicitFrom(cs, ci + 1, x)
  {
    if ExplicitFrom(cs, ci, x) {
      var i :| ci <= i < |cs| && !cs[i].natural && cs[i].time == x;
      assert i != ci;
    }
  }

  /** No explicit coordinate from a natural one `ci` on sits at or before it. */
  lemma NotExplicitUpTo(cs: seq<Coordinate>, ci: nat, x: nat)
    requires StrictTimes(cs) && ci < |cs| && cs[ci].natural && x <= cs[ci].time
    ensures !ExplicitFrom(cs, ci, x)
  {
    forall i | ci <= i < |cs| && !cs[i].natural ensures cs[i].time != x {
      assert i != ci;
      assert cs[ci].time < cs[i].time;
    }
  }

  /** A natural coordinate moves the loop on without touching any phase. */
  lemma NaturalKeepsCorrected(l: Lane, pos: seq<nat>, cs: seq<Coordinate>, ci: nat, p: nat)
    requires Sized(l, |pos|) && 1 <= ci < |cs| && Increasing(pos) && StrictTimes(cs) && AllPresent(cs, pos)
    requires cs[ci].natural && Corrected(l, pos, cs, ci, p)
    ensures Find(pos, cs[ci].time).Some?
    ensures Corrected(l, pos, cs, ci + 1, Find(pos, cs[ci].time).value)
  {
    var q := Find(pos, cs[ci].time).value;
    assert cs[ci - 1].time < cs[ci].time;
    forall k | p < k <= q && k < |pos| ensures LinkedAt(l, k) {
      assert pos[k] <= pos[q];
      NotExplicitUpTo(cs, ci, pos[k]);
    }
    forall k | q < k < |pos| && !ExplicitFrom(cs, ci + 1, pos[k]) ensures LinkedAt(l, k) {
      assert pos[q] < pos[k];
      ExplicitFromNext(cs, ci, pos[k]);
    }
  }

  /** An explicit coordinate's correction leaves the loop state good for
      the next coordinate. */
  lemma ExplicitKeepsCorrected(l: Lane, pos: seq<nat>, durs: seq<nat>, cs: seq<Coordinate>, ci: nat, p: nat,
                               pm: PhaseModFn)
    requires |pos| == |durs| && Sized(l, |pos|) && 1 <= ci < |cs| && Increasing(pos)
    requires !cs[ci].natural && Corrected(l, pos, cs, ci, p)
    requires CorrectTo(l, pos, durs, p, cs[ci - 1], cs[ci], pm).Success?
    ensures var (r, k) := CorrectTo(l, pos, durs, p, cs[ci - 1], cs[ci], pm).value;
            Corrected(r, pos, cs, ci + 1, k)
  {
    var (r, k) := CorrectTo(l, pos, durs, p, cs[ci - 1], cs[ci], pm).value;
    CorrectToSpec(l, pos, durs, p, cs[ci - 1], cs[ci], pm);
    forall m | 0 < m <= k && m < |pos| ensures LinkedAt(r, m) {
      if m <= p {
        assert LinkedAt(l, m);
      } else {
        assert r.end[m - 1] == r.start[m];
      }
    }
    forall m | k < m < |pos| && !ExplicitFrom(cs, ci + 1, pos[m]) ensures LinkedAt(r, m) {
      assert pos[k] < pos[m];
      ExplicitFromNext(cs, ci, pos[m]);
      assert LinkedAt(l, m);
    }
  }

  lemma {:induction false} CorrectFromLinked(l: Lane, pos: seq<nat>, durs: seq<nat>, cs: seq<Coordinate>, ci: nat,
                                             p: nat, pm: PhaseModFn)
    requires |pos| == |durs| && Sized(l, |pos|) && 1 <= ci <= |cs| && p < |pos|
    requires Increasing(pos) && StrictTimes(cs) && AllPresent(cs, pos)
    requires Corrected(l, pos, cs, ci, p)
    requires CorrectFrom(l, pos, durs, cs, ci, Some(p), pm).Success?
    ensures var r := CorrectFrom(l, pos, durs, cs, ci, Some(p), pm).value;
            forall k :: 0 < k < |pos| && pos[k] <= cs[|cs| - 1].time ==> LinkedAt(r, k)
    decreases |cs| - ci
  {
    if ci == |cs| {
      forall k | 0 < k < |pos| && pos[k] <= cs[|cs| - 1].time ensures LinkedAt(l, k) {
        assert k <= p;
      }
    } else if cs[ci].natural {
      NaturalKeepsCorrected(l, pos, cs, ci, p);
      CorrectFromLinked(l, pos, durs, cs, ci + 1, Find(pos, cs[ci].time).value, pm);
    } else {
      var (r, k) := CorrectTo(l, pos, durs, p, cs[ci - 1], cs[ci], pm).value;
      ExplicitKeepsCorrected(l, pos, durs, cs, ci, p, pm);
      CorrectFromLinked(r, pos, durs, cs, ci + 1, k, pm);
    }
  }

  /** The phase continuity pass 2 exists for: if every boundary of its
      input joins except at explicit coordinates, then after the pass every
      boundary up to the last coordinate joins. */
  lemma CorrectPhasesLinked(l: Lane, pos: seq<nat>, durs: seq<nat>, cs: seq<Coordinate>, pm: PhaseModFn)
    requires |pos| == |durs| && Sized(l, |pos|) && Increasing(pos) && StrictTimes(cs) && AllPresent(cs, pos)
    requires |pos| > 0 && |cs| > 0 && pos[0] == cs[0].time
    requires forall k :: 0 < k < |pos| && !ExplicitFrom(cs, 1, pos[k]) ==> LinkedAt(l, k)
    requires CorrectPhases(l, pos, durs, cs, pm).Success?
    ensures var r := CorrectPhases(l, pos, durs, cs, pm).value;
            forall k :: 0 < k < |pos| && pos[k] <= cs[|cs| - 1].time ==> LinkedAt(r, k)
  {
    CorrectFromLinked(l, pos, durs, cs, 1, 0, pm);
  }

  /** Every phase of the lane is in [0, 2*pi). */
  predicate PhasesInRange(l: Lane) {
    && (forall j :: 0 <= j < |l.start| ==> 0.0 <= l.start[j] < TWO_PI)
    && (forall j :: 0 <= j < |l.end| ==> 0.0 <= l.end[j] < TWO_PI)
  }

  lemma {:induction false} SpreadInRange(l: Lane, durs: seq<nat>, p: nat, c: nat, shift: real, span: nat, cum: nat,
                                         natural: real, pm: PhaseModFn)
    requires Sized(l, |durs|) && p <= c < |durs| && span > 0
    requires PhaseModInRange(pm) && PhasesInRange(l)
    requires Spread(l, durs, p, c, shift, span, cum, natural, pm).Success?
    ensures PhasesInRange(Spread(l, durs, p, c, shift, span, cum, natural, pm).value)
    decreases c - p
  {
    if p < c {
      var cum1 := cum + durs[p];
      var x := l.end[p] + Share(shift, cum1, span);
      assert 0.0 <= pm(x) < TWO_PI;
      SpreadInRange(Lane(l.start[p + 1 := pm(x)], l.end[p := pm(x)]), durs, p + 1, c, shift, span, cum1, natural, pm);
    }
  }

  /** Pass 2 keeps every phase in [0, 2*pi): the values it writes come from
      `phaseMod` or are required phases it has checked. */
  lemma {:induction false} CorrectFromInRange(l: Lane, pos: seq<nat>, durs: seq<nat>, cs: seq<Coordinate>, ci: nat,
                                              p: Option<nat>, pm: PhaseModFn)
    requires |pos| == |durs| && Sized(l, |pos|) && 1 <= ci <= |cs| && (p.Some? ==> p.value < |pos|)
    requires PhaseModInRange(pm) && PhasesInRange(l)
    requires CorrectFrom(l, pos, durs, cs, ci, p, pm).Success?
    ensures PhasesInRange(CorrectFrom(l, pos, durs, cs, ci, p, pm).value)
    decreases |cs| - ci
  {
    if ci < |cs| {
      if cs[ci].natural {
        CorrectFromInRange(l, pos, durs, cs, ci + 1, Find(pos, cs[ci].time), pm);
      } else {
        var q := p.value;
        var (r, k) := CorrectTo(l, pos, durs, q, cs[ci - 1], cs[ci], pm).value;
        var c := k - 1;
        var natural := l.end[c];
        var shift := CoherenceCompensation(natural, cs[ci].value);
        SpreadInRange(l, durs, q, c, shift, cs[ci].time - cs[ci - 1].time, 0, natural, pm);
        CorrectFromInRange(r, pos, durs, cs, ci + 1, Some(k), pm);
      }
    }
  }

  lemma CorrectPhasesInRange(l: Lane, pos: seq<nat>, durs: seq<nat>, cs: seq<Coordinate>, pm: PhaseModFn)
    requires |pos| == |durs| && Sized(l, |pos|) && PhaseModInRange(pm) && PhasesInRange(l)
    requires CorrectPhases(l, pos, durs, cs, pm).Success?
    ensures PhasesInRange(CorrectPhases(l, pos, durs, cs, pm).value)
  {
    CorrectFromInRange(l, pos, durs, cs, 1, Some(0), pm);
  }
}
