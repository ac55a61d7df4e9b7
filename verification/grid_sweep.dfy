/** The sweep of pass 1 of the grid mapper: one walk over the ordered set in
    which each of the two envelopes keeps a cursor (its stage, the position
    and level of its previous point, and the position of the point it is
    waiting for). At every entry the amplitude envelope is handled first and
    the frequency envelope second; an envelope whose times have run out
    holds its last level, and one whose awaited point is this entry fills the
    whole stage back to its previous point. */
module EnvelopeSweep {
  import opened Wrappers
  import opened AudioTypes
  import opened PaxelBuilder
  import opened StageFill
  import opened GridBoundaries

  /** `std::find_if` over the positions: the first index holding `p`. */
  function Find(pos: seq<nat>, p: nat): (r: Option<nat>)
    ensures r.Some? ==> r.value < |pos| && pos[r.value] == p
    ensures r.Some? ==> forall j :: 0 <= j < r.value ==> pos[j] != p
    ensures r.None? <==> p !in pos
  {
    FindFrom(pos, p, 0)
  }

  function FindFrom(pos: seq<nat>, p: nat, i: nat): (r: Option<nat>)
    requires i <= |pos|
    ensures r.Some? ==> i <= r.value < |pos| && pos[r.value] == p
    ensures r.Some? ==> forall j :: i <= j < r.value ==> pos[j] != p
    ensures r.None? <==> forall j :: i <= j < |pos| ==> pos[j] != p
    decreases |pos| - i
  {
    if i == |pos| then None
    else if pos[i] == p then Some(i)
    else FindFrom(pos, p, i + 1)
  }

  /** In a strictly increasing sequence the search finds the one index. */
  lemma FindIncreasing(pos: seq<nat>, k: nat)
    requires Increasing(pos) && k < |pos|
    ensures Find(pos, pos[k]) == Some(k)
  {
    assert pos[k] in pos;
  }

  /** The levels of an envelope and its stage times in samples. */
  datatype EnvelopeInput = EnvelopeInput(levels: seq<real>, times: seq<nat>)

  /** The state of one envelope during the sweep: the number of points
      matched so far, the position and level of the previous point, and the
      position being waited for. */
  datatype Cursor = Cursor(stage: nat, prevTime: nat, target: nat, prevLevel: real)

  /** How the awaited position moves on after a match. `NextTime` adds the
      next stage's time, as the frequency envelope does; `SameTime` adds the
      time of the stage just completed, as the amplitude envelope's code
      does. */
  datatype Schedule = NextTime | SameTime

  /** Every envelope starts at time 0 on its first level, waiting for its
      first point; with no times it is exhausted from the start. */
  function StartCursor(e: EnvelopeInput, endTime: nat): (r: Cursor)
    requires |e.levels| > 0
    ensures r.stage == 0 && r.prevTime == 0 && r.prevLevel == e.levels[0]
    ensures |e.times| > 0 ==> r.target == e.times[0]
  {
    Cursor(0, 0, if |e.times| > 0 then e.times[0] else endTime + 1, e.levels[0])
  }

  /** The position awaited after matching stage `k` at `target`. Once the
      last time is used the envelope is exhausted, and the value is never
      read again. */
  function NextTarget(times: seq<nat>, k: nat, target: nat, s: Schedule): (r: nat)
    requires k < |times|
    ensures s == NextTime && k + 1 < |times| ==> r == target + times[k + 1]
    ensures s == SameTime ==> r == target + times[k]
  {
    match s
    case NextTime => if k + 1 < |times| then target + times[k + 1] else target
    case SameTime => target + times[k]
  }

  /** Where the source would fail: the previous point's entry is missing
      (a failed assert), the stage is empty (the fill loop would run past
      the set), or the envelope has fewer levels than points (a read past
      the levels). */
  datatype SweepError = PreviousPointMissing | EmptyStage | ReadPastLevels

  datatype Advanced = Advanced(t: Track, c: Cursor)

  /** One envelope's turn at entry `idx`. */
  function Advance(t: Track, c: Cursor, pos: seq<nat>, durs: seq<nat>, idx: nat, e: EnvelopeInput,
                   q: Quantity, s: Schedule, np: PhaseFn): (r: Result<Advanced, SweepError>)
    requires |pos| == |durs| && TrackSized(t, |pos|) && idx < |pos| && Increasing(pos)
    ensures r.Success? ==> TrackSized(r.value.t, |pos|)
    ensures r.Failure? <==> && c.stage < |e.times| && c.target == pos[idx]
                            && (|| Find(pos, c.prevTime).None?
                                || Find(pos, c.prevTime).value >= idx
                                || c.stage + 1 >= |e.levels|)
    ensures r.Success? && c.stage < |e.times| && c.target != pos[idx] ==> r.value == Advanced(t, c)
    ensures r.Success? && c.stage < |e.times| && c.target == pos[idx] ==>
              r.value.c == Cursor(c.stage + 1, pos[idx], NextTarget(e.times, c.stage, c.target, s), e.levels[c.stage + 1])
  {
    if c.stage >= |e.times| then
      Success(Advanced(Hold(t, durs, idx, c.prevLevel, q, np), c))
    else if c.target != pos[idx] then
      Success(Advanced(t, c))
    else
      match Find(pos, c.prevTime)
      case None => Failure(PreviousPointMissing)
      case Some(lo) =>
        if lo >= idx then Failure(EmptyStage)
        else if c.stage + 1 >= |e.levels| then Failure(ReadPastLevels)
        else
          var to := e.levels[c.stage + 1];
          Success(Advanced(MatchStage(t, pos, durs, lo, idx, c.prevLevel, to, q, np),
                           Cursor(c.stage + 1, c.target, NextTarget(e.times, c.stage, c.target, s), to)))
  }

  /** Once an envelope's times are used up, the position it waits for is
      never read: its turn holds the last level whatever that position is. */
  lemma ExhaustedIgnoresTarget(t: Track, c: Cursor, pos: seq<nat>, durs: seq<nat>, idx: nat, e: EnvelopeInput,
                               q: Quantity, s: Schedule, np: PhaseFn, x: nat)
    requires |pos| == |durs| && TrackSized(t, |pos|) && idx < |pos| && Increasing(pos)
    requires c.stage >= |e.times|
    ensures var a := Advance(t, c, pos, durs, idx, e, q, s, np);
            var b := Advance(t, c.(target := x), pos, durs, idx, e, q, s, np);
            a.Success? && b.Success? && a.value.t == b.value.t == Hold(t, durs, idx, c.prevLevel, q, np)
  {
  }

  /** The builders' values after pass 1, and the two cursors. */
  datatype Pass1 = Pass1(amp: Lane, freq: Lane, phase: Lane, ac: Cursor, fc: Cursor)

  predicate Pass1Sized(st: Pass1, n: nat) {
    Sized(st.amp, n) && Sized(st.freq, n) && Sized(st.phase, n)
  }

  /** The work of the sweep at one entry: amplitude, then frequency. */
  function SweepStep(st: Pass1, pos: seq<nat>, durs: seq<nat>, idx: nat, amp: EnvelopeInput, freq: EnvelopeInput,
                     s: Schedule, np: PhaseFn): (r: Result<Pass1, SweepError>)
    requires |pos| == |durs| && Pass1Sized(st, |pos|) && idx < |pos| && Increasing(pos)
    ensures r.Success? ==> Pass1Sized(r.value, |pos|)
  {
    var a :- Advance(Track(st.amp, st.phase), st.ac, pos, durs, idx, amp, Amplitude, s, np);
    var f :- Advance(Track(st.freq, a.t.phase), st.fc, pos, durs, idx, freq, Frequency, NextTime, np);
    Success(Pass1(a.t.level, f.t.level, f.t.phase, a.c, f.c))
  }

  /** The sweep from entry `idx` to the end of the set. */
  function SweepFrom(st: Pass1, pos: seq<nat>, durs: seq<nat>, idx: nat, amp: EnvelopeInput, freq: EnvelopeInput,
                     s: Schedule, np: PhaseFn): (r: Result<Pass1, SweepError>)
    requires |pos| == |durs| && Pass1Sized(st, |pos|) && idx <= |pos| && Increasing(pos)
    ensures r.Success? ==> Pass1Sized(r.value, |pos|)
    decreases |pos| - idx
  {
    if idx == |pos| then Success(st)
    else
      var st1 :- SweepStep(st, pos, durs, idx, amp, freq, s, np);
      SweepFrom(st1, pos, durs, idx + 1, amp, freq, s, np)
  }

  /** Pass 1 from unset builders, with the phase-coordinate start phases
      already in place. */
  function Sweep(pos: seq<nat>, durs: seq<nat>, presets: seq<real>, amp: EnvelopeInput, freq: EnvelopeInput,
                 endTime: nat, s: Schedule, np: PhaseFn): (r: Result<Pass1, SweepError>)
    requires |pos| == |durs| == |presets| && Increasing(pos)
    requires |amp.levels| > 0 && |freq.levels| > 0
    ensures r.Success? ==> Pass1Sized(r.value, |pos|)
  {
    var n := |pos|;
    var st := Pass1(UnsetLane(n), UnsetLane(n), Lane(presets, UnsetLane(n).end),
                    StartCursor(amp, endTime), StartCursor(freq, endTime));
    SweepFrom(st, pos, durs, 0, amp, freq, s, np)
  }

  /** Entries from `a` on have not been written. */
  predicate Untouched(l: Lane, a: nat)
    requires Sized(l, |l.start|)
  {
    forall j :: a <= j < |l.start| ==> l.start[j] == NO_VALUE_DOUBLE && l.end[j] == NO_VALUE_DOUBLE
  }

  /** What one envelope has written once the sweep has passed entry
      `idx - 1`. While it waits for a point, every boundary up to its
      previous point's entry joins, that entry holds the previous level, and
      nothing after it is written. Once its times are used up, every boundary
      before `idx` joins and the last entry passed ends on the final level. */
  predicate Filled(l: Lane, c: Cursor, pos: seq<nat>, idx: nat, nTimes: nat)
    requires Sized(l, |pos|) && idx <= |pos|
  {
    if c.stage >= nTimes then
      Untouched(l, idx) && (idx > 0 ==> Joined(l, 0, idx - 1) && l.end[idx - 1] == c.prevLevel)
    else
      match Find(pos, c.prevTime)
      case None => false
      case Some(m) =>
        if c.stage == 0 then m == 0 && Untouched(l, 0)
        else m < idx && Joined(l, 0, m) && l.start[m] == c.prevLevel && l.end[m] == c.prevLevel && Untouched(l, m + 1)
  }

  lemma JoinedConcat(l: Lane, a: nat, m: nat, b: nat)
    requires a <= m <= b < |l.start| && |l.end| == |l.start|
    requires Joined(l, a, m) && Joined(l, m, b)
    ensures Joined(l, a, b)
  {
  }

  /** Joins before `lo` survive a stage that starts at `lo` with the value
      the entry already started with. */
  lemma JoinedKept(l: Lane, r: Lane, lo: nat, hi: nat)
    requires lo <= hi < |l.start| && Sized(l, |l.start|) && Sized(r, |l.start|)
    requires Joined(l, 0, lo) && KeptOutside(l, r, lo, hi) && r.start[lo] == l.start[lo]
    ensures Joined(r, 0, lo)
  {
    forall j | 0 <= j < lo ensures r.end[j] == r.start[j + 1] {
      if j + 1 < lo {
        assert r.start[j + 1] == l.start[j + 1];
      }
    }
  }

  /** Holding the last level keeps the exhausted envelope's joins. */
  lemma FilledAfterHold(t: Track, c: Cursor, pos: seq<nat>, durs: seq<nat>, idx: nat, nTimes: nat,
                        q: Quantity, np: PhaseFn)
    requires |pos| == |durs| && TrackSized(t, |pos|) && idx < |pos|
    requires c.stage >= nTimes && Filled(t.level, c, pos, idx, nTimes)
    ensures Filled(Hold(t, durs, idx, c.prevLevel, q, np).level, c, pos, idx + 1, nTimes)
  {
  }

  /** A completed stage leaves the envelope filled up to the matched entry. */
  lemma FilledAfterMatch(t: Track, c: Cursor, pos: seq<nat>, durs: seq<nat>, idx: nat, e: EnvelopeInput,
                         q: Quantity, s: Schedule, np: PhaseFn, lo: nat)
    requires |pos| == |durs| && TrackSized(t, |pos|) && idx < |pos| && Increasing(pos)
    requires c.stage < |e.times| && c.target == pos[idx] && c.stage + 1 < |e.levels|
    requires Find(pos, c.prevTime) == Some(lo) && lo < idx
    requires Filled(t.level, c, pos, idx, |e.times|)
    ensures var to := e.levels[c.stage + 1];
            Filled(MatchStage(t, pos, durs, lo, idx, c.prevLevel, to, q, np).level,
                   Cursor(c.stage + 1, c.target, NextTarget(e.times, c.stage, c.target, s), to),
                   pos, idx + 1, |e.times|)
  {
    var to := e.levels[c.stage + 1];
    var r := MatchStage(t, pos, durs, lo, idx, c.prevLevel, to, q, np).level;
    MatchStageEnds(t, pos, durs, lo, idx, c.prevLevel, to, q, np);
    MatchStageJoins(t, pos, durs, lo, idx, c.prevLevel, to, q, np);
    MatchStageFrame(t, pos, durs, lo, idx, c.prevLevel, to, q, np);
    if c.stage > 0 {
      JoinedKept(t.level, r, lo, idx);
    }
    JoinedConcat(r, 0, lo, idx);
    FindIncreasing(pos, idx);
    assert Untouched(r, idx + 1);
  }

  /** Each envelope's turn keeps its part of the sweep invariant. */
  lemma AdvanceFilled(t: Track, c: Cursor, pos: seq<nat>, durs: seq<nat>, idx: nat, e: EnvelopeInput,
                      q: Quantity, s: Schedule, np: PhaseFn)
    requires |pos| == |durs| && TrackSized(t, |pos|) && idx < |pos| && Increasing(pos)
    requires Filled(t.level, c, pos, idx, |e.times|)
    requires Advance(t, c, pos, durs, idx, e, q, s, np).Success?
    ensures var a := Advance(t, c, pos, durs, idx, e, q, s, np).value;
            Filled(a.t.level, a.c, pos, idx + 1, |e.times|)
  {
    var a := Advance(t, c, pos, durs, idx, e, q, s, np).value;
    if c.stage >= |e.times| {
      assert a == Advanced(Hold(t, durs, idx, c.prevLevel, q, np), c);
      FilledAfterHold(t, c, pos, durs, idx, |e.times|, q, np);
    } else if c.target == pos[idx] {
      var lo := Find(pos, c.prevTime).value;
      var to := e.levels[c.stage + 1];
      assert a == Advanced(MatchStage(t, pos, durs, lo, idx, c.prevLevel, to, q, np),
                           Cursor(c.stage + 1, c.target, NextTarget(e.times, c.stage, c.target, s), to));
      FilledAfterMatch(t, c, pos, durs, idx, e, q, s, np, lo);
    } else {
      assert a == Advanced(t, c);
      FilledWaiting(t.level, c, pos, idx, |e.times|);
    }
  }

  /** A cursor still waiting for a point keeps its lane filled one entry
      further on. */
  lemma FilledWaiting(l: Lane, c: Cursor, pos: seq<nat>, idx: nat, nTimes: nat)
    requires Sized(l, |pos|) && idx < |pos| && c.stage < nTimes && Filled(l, c, pos, idx, nTimes)
    ensures Filled(l, c, pos, idx + 1, nTimes)
  {
  }

  /** The first `n` entries hold values between `lo` and `hi`, at both ends. */
  predicate Within(l: Lane, n: nat, lo: real, hi: real)
    requires n <= |l.start| && |l.end| == |l.start|
  {
    forall j :: 0 <= j < n ==> lo <= l.start[j] <= hi && lo <= l.end[j] <= hi
  }

  /** How many leading entries an envelope has written, as `Filled`
      describes them. */
  function Written(c: Cursor, pos: seq<nat>, idx: nat, nTimes: nat): (r: nat)
    ensures r <= idx
  {
    if c.stage >= nTimes then idx
    else if c.stage == 0 then 0
    else match Find(pos, c.prevTime)
      case Some(m) => if m < idx then m + 1 else 0
      case None => 0
  }

  /** The cursor follows the envelope's own points: its previous point is
      point `stage`, it waits for point `stage + 1`, and while the previous
      point is not past the end the awaited one is still ahead in the set. */
  predicate Tracks(c: Cursor, e: EnvelopeInput, pos: seq<nat>, idx: nat, endTime: nat) {
    && c.stage <= |e.times| && c.stage < |e.levels|
    && c.prevLevel == e.levels[c.stage]
    && c.prevTime == Prefix(e.times, c.stage)
    && (c.stage < |e.times| ==>
          && c.target == Prefix(e.times, c.stage + 1)
          && (Prefix(e.times, c.stage) <= endTime ==> exists j :: idx <= j < |pos| && pos[j] == c.target))
  }

  /** What the boundary set guarantees about an envelope's points: each
      point whose predecessor is not past the end is a boundary. */
  predicate PointsPresent(times: seq<nat>, endTime: nat, pos: seq<nat>) {
    forall j :: 1 <= j <= |times| && Prefix(times, j - 1) <= endTime ==> Prefix(times, j) in pos
  }

  /** An envelope the sweep can follow: a level for every point, no empty
      stage, and every level between `lo` and `hi`. */
  predicate Followable(e: EnvelopeInput, lo: real, hi: real) {
    && |e.levels| > |e.times|
    && (forall k :: 0 <= k < |e.times| ==> e.times[k] > 0)
    && (forall k :: 0 <= k < |e.levels| ==> lo <= e.levels[k] <= hi)
  }

  /** The sweep invariant for one envelope. */
  predicate EnvelopeOk(l: Lane, c: Cursor, e: EnvelopeInput, pos: seq<nat>, idx: nat, endTime: nat, lo: real, hi: real)
    requires Sized(l, |pos|) && idx <= |pos|
  {
    && Filled(l, c, pos, idx, |e.times|)
    && Within(l, Written(c, pos, idx, |e.times|), lo, hi)
    && Tracks(c, e, pos, idx, endTime)
  }

  /** On a set holding its points, a followable envelope's turn never fails. */
  lemma AdvanceSucceeds(t: Track, c: Cursor, pos: seq<nat>, durs: seq<nat>, idx: nat, e: EnvelopeInput,
                        endTime: nat, q: Quantity, np: PhaseFn, lo: real, hi: real)
    requires |pos| == |durs| && TrackSized(t, |pos|) && idx < |pos| && Increasing(pos) && pos[0] == 0
    requires Followable(e, lo, hi) && EnvelopeOk(t.level, c, e, pos, idx, endTime, lo, hi)
    ensures Advance(t, c, pos, durs, idx, e, q, NextTime, np).Success?
  {
    if c.stage < |e.times| && c.target == pos[idx] && c.stage == 0 {
      assert Prefix(e.times, 1) == e.times[0];
    }
  }

  /** Each envelope's turn keeps the schedule part of the invariant. */
  lemma AdvanceTracks(t: Track, c: Cursor, pos: seq<nat>, durs: seq<nat>, idx: nat, e: EnvelopeInput,
                      endTime: nat, q: Quantity, np: PhaseFn, lo: real, hi: real)
    requires |pos| == |durs| && TrackSized(t, |pos|) && idx < |pos| && Increasing(pos)
    requires Followable(e, lo, hi) && PointsPresent(e.times, endTime, pos)
    requires Tracks(c, e, pos, idx, endTime)
    requires Advance(t, c, pos, durs, idx, e, q, NextTime, np).Success?
    ensures Tracks(Advance(t, c, pos, durs, idx, e, q, NextTime, np).value.c, e, pos, idx + 1, endTime)
  {
    var a := Advance(t, c, pos, durs, idx, e, q, NextTime, np).value;
    if c.stage >= |e.times| {
      assert a.c == c;
    } else if c.target == pos[idx] {
      TracksAfterMatch(c, e, pos, idx, endTime, lo, hi);
    } else {
      assert a.c == c;
      TracksWhileWaiting(c, e, pos, idx, endTime);
    }
  }

  /** A matched point moves the cursor on to the next one. */
  lemma TracksAfterMatch(c: Cursor, e: EnvelopeInput, pos: seq<nat>, idx: nat, endTime: nat, lo: real, hi: real)
    requires idx < |pos| && Increasing(pos) && Followable(e, lo, hi) && PointsPresent(e.times, endTime, pos)
    requires Tracks(c, e, pos, idx, endTime) && c.stage < |e.times| && c.target == pos[idx]
    ensures Tracks(Cursor(c.stage + 1, c.target, NextTarget(e.times, c.stage, c.target, NextTime), e.levels[c.stage + 1]),
                   e, pos, idx + 1, endTime)
  {
    var s := c.stage + 1;
    assert c.target == Prefix(e.times, s);
    if s < |e.times| {
      assert NextTarget(e.times, c.stage, c.target, NextTime) == Prefix(e.times, s + 1);
      if Prefix(e.times, s) <= endTime {
        assert Prefix(e.times, s + 1) in pos;
        var j :| 0 <= j < |pos| && pos[j] == Prefix(e.times, s + 1);
        assert e.times[s] > 0 && pos[j] > pos[idx];
      }
    }
  }

  /** An unmatched cursor keeps waiting for a point further on. */
  lemma TracksWhileWaiting(c: Cursor, e: EnvelopeInput, pos: seq<nat>, idx: nat, endTime: nat)
    requires idx < |pos| && Tracks(c, e, pos, idx, endTime) && c.stage < |e.times| && c.target != pos[idx]
    ensures Tracks(c, e, pos, idx + 1, endTime)
  {
    if Prefix(e.times, c.stage) <= endTime {
      var j :| idx <= j < |pos| && pos[j] == c.target;
      assert j != idx;
    }
  }

  /** Each envelope's turn keeps every written value between the levels. */
  lemma AdvanceWithin(t: Track, c: Cursor, pos: seq<nat>, durs: seq<nat>, idx: nat, e: EnvelopeInput,
                      q: Quantity, np: PhaseFn, lo: real, hi: real)
    requires |pos| == |durs| && TrackSized(t, |pos|) && idx < |pos| && Increasing(pos) && GapDurations(pos, durs)
    requires Followable(e, lo, hi) && c.stage < |e.levels| && c.prevLevel == e.levels[c.stage]
    requires Filled(t.level, c, pos, idx, |e.times|)
    requires Within(t.level, Written(c, pos, idx, |e.times|), lo, hi)
    requires Advance(t, c, pos, durs, idx, e, q, NextTime, np).Success?
    ensures var a := Advance(t, c, pos, durs, idx, e, q, NextTime, np).value;
            Within(a.t.level, Written(a.c, pos, idx + 1, |e.times|), lo, hi)
  {
    var a := Advance(t, c, pos, durs, idx, e, q, NextTime, np).value;
    if c.stage >= |e.times| {
      assert a == Advanced(Hold(t, durs, idx, c.prevLevel, q, np), c);
      assert lo <= e.levels[c.stage] <= hi;
      WithinAfterHold(t, durs, idx, c.prevLevel, q, np, lo, hi);
    } else if c.target != pos[idx] {
      assert a == Advanced(t, c);
      assert Written(c, pos, idx + 1, |e.times|) == Written(c, pos, idx, |e.times|);
    } else {
      var m := Find(pos, c.prevTime).value;
      var to := e.levels[c.stage + 1];
      assert a == Advanced(MatchStage(t, pos, durs, m, idx, c.prevLevel, to, q, np),
                           Cursor(c.stage + 1, c.target, NextTarget(e.times, c.stage, c.target, NextTime), to));
      WithinMatchCase(t, c, e, pos, durs, idx, m, q, np, lo, hi);
    }
  }

  /** The written values stay inside `lo..hi` across a matched point. */
  lemma WithinMatchCase(t: Track, c: Cursor, e: EnvelopeInput, pos: seq<nat>, durs: seq<nat>, idx: nat, m: nat,
                        q: Quantity, np: PhaseFn, lo: real, hi: real)
    requires |pos| == |durs| && TrackSized(t, |pos|) && idx < |pos| && Increasing(pos) && GapDurations(pos, durs)
    requires Followable(e, lo, hi) && c.stage < |e.levels| && c.prevLevel == e.levels[c.stage]
    requires c.stage < |e.times| && c.target == pos[idx] && Find(pos, c.prevTime) == Some(m) && m < idx
    requires Filled(t.level, c, pos, idx, |e.times|)
    requires Within(t.level, Written(c, pos, idx, |e.times|), lo, hi)
    ensures var to := e.levels[c.stage + 1];
            Within(MatchStage(t, pos, durs, m, idx, c.prevLevel, to, q, np).level,
                   Written(Cursor(c.stage + 1, c.target, NextTarget(e.times, c.stage, c.target, NextTime), to),
                           pos, idx + 1, |e.times|), lo, hi)
  {
    var to := e.levels[c.stage + 1];
    assert lo <= to <= hi;
    assert Written(c, pos, idx, |e.times|) >= m;
    WithinAfterMatch(t, pos, durs, m, idx, c.prevLevel, to, q, np, lo, hi);
    FindIncreasing(pos, idx);
  }

  /** Holding a level inside `lo..hi` at the next entry keeps the written
      values inside. */
  lemma WithinAfterHold(t: Track, durs: seq<nat>, idx: nat, v: real, q: Quantity, np: PhaseFn, lo: real, hi: real)
    requires TrackSized(t, |durs|) && idx < |durs| && Within(t.level, idx, lo, hi) && lo <= v <= hi
    ensures Within(Hold(t, durs, idx, v, q, np).level, idx + 1, lo, hi)
  {
  }

  /** A completed stage between two levels inside `lo..hi` keeps the
      written values inside, up to the matched entry. */
  lemma WithinAfterMatch(t: Track, pos: seq<nat>, durs: seq<nat>, m: nat, idx: nat, from: real, to: real,
                         q: Quantity, np: PhaseFn, lo: real, hi: real)
    requires |pos| == |durs| && TrackSized(t, |pos|) && Increasing(pos) && GapDurations(pos, durs)
    requires m < idx < |pos| && Within(t.level, m, lo, hi)
    requires lo <= from <= hi && lo <= to <= hi
    ensures Within(MatchStage(t, pos, durs, m, idx, from, to, q, np).level, idx + 1, lo, hi)
  {
    var r := MatchStage(t, pos, durs, m, idx, from, to, q, np).level;
    MatchStageBetween(t, pos, durs, m, idx, from, to, q, np);
    MatchStageFrame(t, pos, durs, m, idx, from, to, q, np);
    forall j | 0 <= j < idx + 1
      ensures lo <= r.start[j] <= hi && lo <= r.end[j] <= hi
    {
      if j < m {
        assert r.start[j] == t.level.start[j] && r.end[j] == t.level.end[j];
      } else {
        assert Between(r.start[j], from, to) && Between(r.end[j], from, to);
      }
    }
  }

  /** The whole invariant survives one envelope's turn. */
  lemma AdvanceOk(t: Track, c: Cursor, pos: seq<nat>, durs: seq<nat>, idx: nat, e: EnvelopeInput,
                  endTime: nat, q: Quantity, np: PhaseFn, lo: real, hi: real)
    requires |pos| == |durs| && TrackSized(t, |pos|) && idx < |pos| && Increasing(pos) && GapDurations(pos, durs)
    requires pos[0] == 0 && Followable(e, lo, hi) && PointsPresent(e.times, endTime, pos)
    requires EnvelopeOk(t.level, c, e, pos, idx, endTime, lo, hi)
    ensures Advance(t, c, pos, durs, idx, e, q, NextTime, np).Success?
    ensures var a := Advance(t, c, pos, durs, idx, e, q, NextTime, np).value;
            EnvelopeOk(a.t.level, a.c, e, pos, idx + 1, endTime, lo, hi)
  {
    AdvanceSucceeds(t, c, pos, durs, idx, e, endTime, q, np, lo, hi);
    AdvanceFilled(t, c, pos, durs, idx, e, q, NextTime, np);
    AdvanceWithin(t, c, pos, durs, idx, e, q, np, lo, hi);
    AdvanceTracks(t, c, pos, durs, idx, e, endTime, q, np, lo, hi);
  }

  /** The sweep invariant for both envelopes at entry `idx`. */
  predicate SweepOk(st: Pass1, pos: seq<nat>, idx: nat, amp: EnvelopeInput, freq: EnvelopeInput, endTime: nat,
                    fLo: real, fHi: real)
    requires Pass1Sized(st, |pos|) && idx <= |pos|
  {
    && EnvelopeOk(st.amp, st.ac, amp, pos, idx, endTime, -1.0, 1.0)
    && EnvelopeOk(st.freq, st.fc, freq, pos, idx, endTime, fLo, fHi)
  }

  /** What the sweep needs of its inputs: a strictly increasing set that
      starts at 0, tiled by the durations, holding both envelopes' points. */
  predicate SweepInputs(pos: seq<nat>, durs: seq<nat>, amp: EnvelopeInput, freq: EnvelopeInput, endTime: nat,
                        fLo: real, fHi: real)
  {
    && |pos| == |durs| && |pos| > 0 && pos[0] == 0 && Increasing(pos) && GapDurations(pos, durs)
    && Followable(amp, -1.0, 1.0) && Followable(freq, fLo, fHi)
    && PointsPresent(amp.times, endTime, pos) && PointsPresent(freq.times, endTime, pos)
  }

  lemma {:induction false} SweepFromOk(st: Pass1, pos: seq<nat>, durs: seq<nat>, idx: nat, amp: EnvelopeInput,
                                        freq: EnvelopeInput, endTime: nat, np: PhaseFn, fLo: real, fHi: real)
    requires SweepInputs(pos, durs, amp, freq, endTime, fLo, fHi)
    requires Pass1Sized(st, |pos|) && idx <= |pos|
    requires SweepOk(st, pos, idx, amp, freq, endTime, fLo, fHi)
    ensures SweepFrom(st, pos, durs, idx, amp, freq, NextTime, np).Success?
    ensures SweepOk(SweepFrom(st, pos, durs, idx, amp, freq, NextTime, np).value, pos, |pos|, amp, freq, endTime, fLo, fHi)
    decreases |pos| - idx
  {
    if idx < |pos| {
      var ta := Track(st.amp, st.phase);
      AdvanceOk(ta, st.ac, pos, durs, idx, amp, endTime, Amplitude, np, -1.0, 1.0);
      var a := Advance(ta, st.ac, pos, durs, idx, amp, Amplitude, NextTime, np).value;
      var tf := Track(st.freq, a.t.phase);
      AdvanceOk(tf, st.fc, pos, durs, idx, freq, endTime, Frequency, np, fLo, fHi);
      var f := Advance(tf, st.fc, pos, durs, idx, freq, Frequency, NextTime, np).value;
      var st1 := Pass1(a.t.level, f.t.level, f.t.phase, a.c, f.c);
      assert SweepStep(st, pos, durs, idx, amp, freq, NextTime, np) == Success(st1);
      SweepFromOk(st1, pos, durs, idx + 1, amp, freq, endTime, np, fLo, fHi);
    }
  }

  /** Every entry up to the end holds values between the levels and joins
      the entry after it. */
  predicate CoversEnd(l: Lane, pos: seq<nat>, endTime: nat, lo: real, hi: real)
    requires Sized(l, |pos|)
  {
    forall j :: 0 <= j < |pos| && pos[j] <= endTime ==>
      && lo <= l.start[j] <= hi && lo <= l.end[j] <= hi
      && (j + 1 < |pos| ==> l.end[j] == l.start[j + 1])
  }

  lemma EnvelopeOkCovers(l: Lane, c: Cursor, e: EnvelopeInput, pos: seq<nat>, endTime: nat, lo: real, hi: real)
    requires Sized(l, |pos|) && |pos| > 0 && Increasing(pos)
    requires EnvelopeOk(l, c, e, pos, |pos|, endTime, lo, hi)
    ensures CoversEnd(l, pos, endTime, lo, hi)
  {
    if c.stage < |e.times| {
      var m := Find(pos, c.prevTime).value;
      assert Prefix(e.times, c.stage) > endTime;
      assert c.stage > 0 && Written(c, pos, |pos|, |e.times|) == m + 1;
      forall j | 0 <= j < |pos| && pos[j] <= endTime
        ensures j < m
      {
        assert pos[j] < pos[m];
      }
    }
  }

  /** Pass 1 with the corrected schedule, on a boundary set that holds both
      envelopes' points, never fails; both envelopes are then written on
      every entry up to the end, every value lies between the envelope's
      levels, and every boundary up to the end joins. */
  lemma SweepCovers(pos: seq<nat>, durs: seq<nat>, presets: seq<real>, amp: EnvelopeInput, freq: EnvelopeInput,
                    endTime: nat, np: PhaseFn, fLo: real, fHi: real)
    requires SweepInputs(pos, durs, amp, freq, endTime, fLo, fHi) && |presets| == |pos|
    ensures Sweep(pos, durs, presets, amp, freq, endTime, NextTime, np).Success?
    ensures var r := Sweep(pos, durs, presets, amp, freq, endTime, NextTime, np).value;
            && CoversEnd(r.amp, pos, endTime, -1.0, 1.0)
            && CoversEnd(r.freq, pos, endTime, fLo, fHi)
  {
    var n := |pos|;
    var st := Pass1(UnsetLane(n), UnsetLane(n), Lane(presets, UnsetLane(n).end),
                    StartCursor(amp, endTime), StartCursor(freq, endTime));
    FindIncreasing(pos, 0);
    SweepFromOk(st, pos, durs, 0, amp, freq, endTime, np, fLo, fHi);
    var r := Sweep(pos, durs, presets, amp, freq, endTime, NextTime, np).value;
    EnvelopeOkCovers(r.amp, r.ac, amp, pos, endTime, -1.0, 1.0);
    EnvelopeOkCovers(r.freq, r.fc, freq, pos, endTime, fLo, fHi);
  }

  /** An envelope with a zero-sample stage is not followed: its awaited
      point is its previous point, and the sweep stops with `EmptyStage`
      where the source's fill loop would run past the set. */
  lemma ZeroStageAborts(np: PhaseFn)
    ensures var pos := [0, 10];
            Sweep(pos, Durations(pos, 10), [0.0, NO_VALUE_DOUBLE], EnvelopeInput([0.0, 1.0], [0]),
                  EnvelopeInput([100.0], []), 10, SameTime, np) == Failure(EmptyStage)
  {
    assert Find([0, 10], 0) == Some(0);
  }

  /** An envelope with more times than stages (which the envelope accepts)
      is not followed either: once its levels run out while a time remains,
      the sweep stops with `ReadPastLevels` where the source reads past the
      levels. */
  lemma ExtraTimeAborts(np: PhaseFn)
    ensures var pos := [0, 10];
            Sweep(pos, Durations(pos, 10), [0.0, NO_VALUE_DOUBLE], EnvelopeInput([0.5], [10]),
                  EnvelopeInput([100.0], []), 10, SameTime, np) == Failure(ReadPastLevels)
  {
    assert Find([0, 10], 0) == Some(0);
  }

  /** The two schedules' cursors agree once the envelope is exhausted,
      whatever each one waits for. */
  predicate AgreeOnCursor(c1: Cursor, c2: Cursor, nTimes: nat) {
    c1 == c2 || (c1.stage >= nTimes && c2 == c1.(target := c2.target))
  }

  /** With at most one stage, an envelope's turn is the same under both
      schedules: the awaited position they compute differently is set only
      when the envelope becomes exhausted. */
  lemma AdvanceScheduleFree(t: Track, c1: Cursor, c2: Cursor, pos: seq<nat>, durs: seq<nat>, idx: nat,
                            e: EnvelopeInput, q: Quantity, s1: Schedule, s2: Schedule, np: PhaseFn)
    requires |pos| == |durs| && TrackSized(t, |pos|) && idx < |pos| && Increasing(pos)
    requires |e.times| <= 1 && AgreeOnCursor(c1, c2, |e.times|)
    ensures var r1 := Advance(t, c1, pos, durs, idx, e, q, s1, np);
            var r2 := Advance(t, c2, pos, durs, idx, e, q, s2, np);
            && (r1.Failure? ==> r1 == r2)
            && (r1.Success? ==> r2.Success? && r1.value.t == r2.value.t
                                && AgreeOnCursor(r1.value.c, r2.value.c, |e.times|))
  {
  }

  /** Two sweep states that differ at most in the exhausted amplitude
      cursor's awaited position. */
  predicate AgreeOnState(st1: Pass1, st2: Pass1, nTimes: nat) {
    && st1.amp == st2.amp && st1.freq == st2.freq && st1.phase == st2.phase && st1.fc == st2.fc
    && AgreeOnCursor(st1.ac, st2.ac, nTimes)
  }

  /** Results of the sweep that fail alike or succeed with the same
      builder values. */
  predicate AgreeOnResult(r1: Result<Pass1, SweepError>, r2: Result<Pass1, SweepError>) {
    (r1.Failure? && r1 == r2)
    || (r1.Success? && r2.Success? && r1.value.amp == r2.value.amp && r1.value.freq == r2.value.freq
        && r1.value.phase == r2.value.phase)
  }

  lemma {:induction false} SweepFromScheduleFree(st1: Pass1, st2: Pass1, pos: seq<nat>, durs: seq<nat>, idx: nat,
                                                  amp: EnvelopeInput, freq: EnvelopeInput, s1: Schedule, s2: Schedule,
                                                  np: PhaseFn)
    requires |pos| == |durs| && Pass1Sized(st1, |pos|) && idx <= |pos| && Increasing(pos)
    requires |amp.times| <= 1 && AgreeOnState(st1, st2, |amp.times|)
    ensures AgreeOnResult(SweepFrom(st1, pos, durs, idx, amp, freq, s1, np),
                          SweepFrom(st2, pos, durs, idx, amp, freq, s2, np))
    decreases |pos| - idx
  {
    if idx < |pos| {
      AdvanceScheduleFree(Track(st1.amp, st1.phase), st1.ac, st2.ac, pos, durs, idx, amp, Amplitude, s1, s2, np);
      var r1 := SweepStep(st1, pos, durs, idx, amp, freq, s1, np);
      var r2 := SweepStep(st2, pos, durs, idx, amp, freq, s2, np);
      if r1.Success? {
        assert r2.Success? && AgreeOnState(r1.value, r2.value, |amp.times|);
        SweepFromScheduleFree(r1.value, r2.value, pos, durs, idx + 1, amp, freq, s1, s2, np);
      } else {
        assert r1 == r2;
      }
    } else {
      assert Pass1Sized(st2, |pos|);
    }
  }

  /** With at most one amplitude stage the two schedules sweep alike: the
      schedule fault shows only from the second amplitude stage on. */
  lemma SweepScheduleFree(pos: seq<nat>, durs: seq<nat>, presets: seq<real>, amp: EnvelopeInput,
                          freq: EnvelopeInput, endTime: nat, np: PhaseFn)
    requires |pos| == |durs| == |presets| && Increasing(pos)
    requires |amp.levels| > 0 && |freq.levels| > 0 && |amp.times| <= 1
    ensures AgreeOnResult(Sweep(pos, durs, presets, amp, freq, endTime, SameTime, np),
                          Sweep(pos, durs, presets, amp, freq, endTime, NextTime, np))
  {
    var n := |pos|;
    var st := Pass1(UnsetLane(n), UnsetLane(n), Lane(presets, UnsetLane(n).end),
                    StartCursor(amp, endTime), StartCursor(freq, endTime));
    SweepFromScheduleFree(st, st, pos, durs, 0, amp, freq, SameTime, NextTime, np);
  }

  /** The amplitude schedule as written, on a three-level envelope over one
      second (0 to 0.5 in half a second, then to 1 in a quarter second): the
      second stage waits for 48000 + 48000 instead of 48000 + 24000, so at
      72000 samples the amplitude is still on its way and not yet 1. */
  lemma AmplitudeScheduleAsWritten()
    ensures var pos := [0, 48000, 72000, 96000];
            var np: PhaseFn := (s, a, b, d) => 0.0;
            var w := Sweep(pos, Durations(pos, 96000), [0.0, NO_VALUE_DOUBLE, NO_VALUE_DOUBLE, NO_VALUE_DOUBLE],
                           EnvelopeInput([0.0, 0.5, 1.0], [48000, 24000]), EnvelopeInput([100.0], []), 96000,
                           SameTime, np);
            w.Success? && w.value.amp.start[2] == 0.75
  {
    var pos := [0, 48000, 72000, 96000];
    var durs := Durations(pos, 96000);
    var np: PhaseFn := (s, a, b, d) => 0.0;
    var amp, freq := EnvelopeInput([0.0, 0.5, 1.0], [48000, 24000]), EnvelopeInput([100.0], []);
    var presets := [0.0, NO_VALUE_DOUBLE, NO_VALUE_DOUBLE, NO_VALUE_DOUBLE];
    var st0 := Pass1(UnsetLane(4), UnsetLane(4), Lane(presets, UnsetLane(4).end),
                     StartCursor(amp, 96000), StartCursor(freq, 96000));
    var st1 := SweepStep(st0, pos, durs, 0, amp, freq, SameTime, np).value;
    var st2 := SweepStep(st1, pos, durs, 1, amp, freq, SameTime, np).value;
    assert st2.ac == Cursor(1, 48000, 96000, 0.5);
    assert Sweep(pos, durs, presets, amp, freq, 96000, SameTime, np) == SweepFrom(st2, pos, durs, 2, amp, freq, SameTime, np);
    SecondStageAsWritten(st2, np);
  }

  /** From entry 2 on, with the amplitude cursor after the first point,
      the schedule as written fills the second stage over two entries. */
  lemma SecondStageAsWritten(st: Pass1, np: PhaseFn)
    requires Pass1Sized(st, 4) && st.ac == Cursor(1, 48000, 96000, 0.5)
    ensures var pos := [0, 48000, 72000, 96000];
            var w := SweepFrom(st, pos, Durations(pos, 96000), 2, EnvelopeInput([0.0, 0.5, 1.0], [48000, 24000]),
                               EnvelopeInput([100.0], []), SameTime, np);
            w.Success? && w.value.amp.start[2] == 0.75
  {
    var pos := [0, 48000, 72000, 96000];
    var durs := Durations(pos, 96000);
    var amp, freq := EnvelopeInput([0.0, 0.5, 1.0], [48000, 24000]), EnvelopeInput([100.0], []);
    var st3 := SweepStep(st, pos, durs, 2, amp, freq, SameTime, np).value;
    assert st3.ac == st.ac;
    FindIncreasing(pos, 1);
    var t := Track(st3.amp, st3.phase);
    SecondStageFill(t, np);
    var a := Advance(t, st3.ac, pos, durs, 3, amp, Amplitude, SameTime, np).value;
    assert a.t == MatchStage(t, pos, durs, 1, 3, 0.5, 1.0, Amplitude, np);
  }

  /** The second stage's fill: half a second from 0.5 to 1, so the entry a
      quarter second in starts at 0.75. */
  lemma SecondStageFill(t: Track, np: PhaseFn)
    requires TrackSized(t, 4)
    ensures var pos := [0, 48000, 72000, 96000];
            MatchStage(t, pos, Durations(pos, 96000), 1, 3, 0.5, 1.0, Amplitude, np).level.start[2] == 0.75
  {
  }

  /** The corrected schedule reaches the last level at its own time. */
  lemma AmplitudeScheduleCorrected()
    ensures var pos := [0, 48000, 72000, 96000];
            var np: PhaseFn := (s, a, b, d) => 0.0;
            var w := Sweep(pos, Durations(pos, 96000), [0.0, NO_VALUE_DOUBLE, NO_VALUE_DOUBLE, NO_VALUE_DOUBLE],
                           EnvelopeInput([0.0, 0.5, 1.0], [48000, 24000]), EnvelopeInput([100.0], []), 96000,
                           NextTime, np);
            w.Success? && w.value.amp.start[2] == 1.0
  {
  }
}
