/** The first stage of the grid mapper (`mapEnvelopesToPaxels`): the ordered
    set of boundary positions of a partial. It is the union of the phase
    coordinate times, the regular grid lines and the cumulative envelope
    stage times; the phase coordinates go in first, so their preset start
    phases are the entries that survive at shared positions. */
module GridBoundaries {
  import opened AudioTypes
  import opened EnvelopeTypes
  import opened PaxelBuilder

  /** A run of `std::set::insert` calls, in order. */
  function {:induction false} InsertAll(es: seq<Entry>, xs: seq<Entry>): (r: seq<Entry>)
    requires Ordered(es)
    ensures Ordered(r)
    ensures Positions(r) == Positions(es) + Positions(xs)
    decreases |xs|
  {
    if |xs| == 0 then es
    else
      assert xs == [xs[0]] + xs[1..];
      PositionsCons(xs[0], xs[1..]);
      InsertAll(InsertEntry(es, xs[0]), xs[1..])
  }

  /** Insertion never replaces an entry, and adds only the inserted ones. */
  lemma {:induction false} InsertAllMembers(es: seq<Entry>, xs: seq<Entry>)
    requires Ordered(es)
    ensures forall x :: x in es ==> x in InsertAll(es, xs)
    ensures forall x :: x in InsertAll(es, xs) ==> x in es || x in xs
    decreases |xs|
  {
    if |xs| > 0 {
      InsertEntryMembers(es, xs[0]);
      InsertAllMembers(InsertEntry(es, xs[0]), xs[1..]);
      assert xs == [xs[0]] + xs[1..];
    }
  }

  /** Entries with unset builders at the given positions. */
  function FreshEntries(ps: seq<nat>): (r: seq<Entry>)
    ensures |r| == |ps|
    ensures forall i :: 0 <= i < |ps| ==> r[i] == Entry(ps[i], Fresh)
  {
    if |ps| == 0 then [] else [Entry(ps[0], Fresh)] + FreshEntries(ps[1..])
  }

  lemma FreshEntriesPositions(ps: seq<nat>, p: nat)
    ensures p in Positions(FreshEntries(ps)) <==> p in ps
  {
    PositionsMembers(FreshEntries(ps), p);
    if p in ps {
      var i :| 0 <= i < |ps| && ps[i] == p;
      assert FreshEntries(ps)[i].position == p;
    }
  }

  /** The entry of one phase coordinate: its start phase is preset unless
      the coordinate asks for the natural phase. */
  function PhaseEntry(c: PhaseCoordinate): Entry
    requires c.timeSamples >= 0
  {
    Entry(c.timeSamples, if c.natural then Fresh else Fresh.(startPhase := c.value))
  }

  predicate NonNegativeTimes(cs: seq<PhaseCoordinate>) {
    forall i :: 0 <= i < |cs| ==> cs[i].timeSamples >= 0
  }

  function PhaseEntries(cs: seq<PhaseCoordinate>): (r: seq<Entry>)
    requires NonNegativeTimes(cs)
    ensures |r| == |cs|
    ensures forall i :: 0 <= i < |cs| ==> r[i] == PhaseEntry(cs[i])
  {
    if |cs| == 0 then [] else [PhaseEntry(cs[0])] + PhaseEntries(cs[1..])
  }

  /** The `k`-th regular grid line. */
  function GridLine(offset: nat, g: nat, k: nat): nat {
    offset + k * g
  }

  /** The grid lines from `total` on, below `endTime`, in the order the
      source's loop inserts them. */
  function GridSeq(total: nat, g: nat, endTime: nat): seq<nat>
    requires g > 0
    decreases endTime - total
  {
    if total < endTime then [total] + GridSeq(total + g, g, endTime) else []
  }

  /** The loop visits exactly the grid lines `offset + k*g` below the end. */
  lemma {:induction false} GridSeqMembers(offset: nat, g: nat, endTime: nat, x: nat)
    requires g > 0
    ensures x in GridSeq(offset, g, endTime) <==>
              x < endTime && exists k: nat :: x == GridLine(offset, g, k)
    decreases endTime - offset
  {
    if offset < endTime {
      var next := offset + g;
      GridSeqMembers(next, g, endTime, x);
      assert GridSeq(offset, g, endTime) == [offset] + GridSeq(next, g, endTime);
      if x in GridSeq(offset, g, endTime) {
        if x == offset {
          assert x == GridLine(offset, g, 0);
        } else {
          assert x in GridSeq(next, g, endTime);
          var k: nat :| x == GridLine(next, g, k);
          GridLineStep(offset, g, k);
          assert x == GridLine(offset, g, k + 1);
        }
      }
      if x < endTime && exists k: nat :: x == GridLine(offset, g, k) {
        var k: nat :| x == GridLine(offset, g, k);
        if k > 0 {
          GridLineStep(offset, g, k - 1);
          assert x == GridLine(next, g, k - 1);
          assert x in GridSeq(next, g, endTime);
        } else {
          assert x == offset;
        }
      }
    } else {
      if exists k: nat :: x == GridLine(offset, g, k) {
        var k: nat :| x == GridLine(offset, g, k);
        assert x >= offset;
      }
    }
  }

  /** One grid step from `offset` is the next grid's origin. */
  lemma GridLineStep(offset: nat, g: nat, k: nat)
    ensures GridLine(offset, g, k + 1) == GridLine(offset + g, g, k)
  {
    assert (k + 1) * g == g + k * g;
  }

  /** Sum of the first `i` stage times: the absolute time of envelope point `i`. */
  function Prefix(ts: seq<nat>, i: nat): nat
    requires i <= |ts|
  {
    if i == 0 then 0 else Prefix(ts, i - 1) + ts[i - 1]
  }

  lemma {:induction false} PrefixMonotone(ts: seq<nat>, i: nat, j: nat)
    requires i <= j <= |ts|
    ensures Prefix(ts, i) <= Prefix(ts, j)
    decreases j
  {
    if i < j {
      PrefixMonotone(ts, i, j - 1);
    }
  }

  /** The running totals from envelope point `i + 1` on, in the order the
      source's loop inserts them: it stops after the first total beyond
      `endTime`. */
  function CumulativeFrom(ts: seq<nat>, i: nat, endTime: nat): seq<nat>
    requires i <= |ts|
    decreases |ts| - i
  {
    if i == |ts| then []
    else [Prefix(ts, i + 1)] + (if Prefix(ts, i + 1) > endTime then [] else CumulativeFrom(ts, i + 1, endTime))
  }

  /** An envelope point is a boundary exactly when the point before it is
      not beyond the end: every point up to the end, and the first one past
      it. */
  predicate IsEnvelopePoint(ts: seq<nat>, endTime: nat, x: nat) {
    exists j :: 1 <= j <= |ts| && x == Prefix(ts, j) && Prefix(ts, j - 1) <= endTime
  }

  lemma {:induction false} CumulativeFromMembers(ts: seq<nat>, i: nat, endTime: nat, x: nat)
    requires i <= |ts| && Prefix(ts, i) <= endTime
    ensures x in CumulativeFrom(ts, i, endTime) <==>
              exists j :: i < j <= |ts| && x == Prefix(ts, j) && Prefix(ts, j - 1) <= endTime
  {
    forall j | i < j <= |ts| && x == Prefix(ts, j) && Prefix(ts, j - 1) <= endTime
      ensures x in CumulativeFrom(ts, i, endTime)
    {
      CumulativeFromComplete(ts, i, endTime, j);
    }
    if x in CumulativeFrom(ts, i, endTime) {
      var j := CumulativeFromSound(ts, i, endTime, x);
    }
  }

  /** Every total the loop inserts is an envelope point whose predecessor
      is not beyond the end. */
  lemma {:induction false} CumulativeFromSound(ts: seq<nat>, i: nat, endTime: nat, x: nat) returns (j: nat)
    requires i <= |ts| && Prefix(ts, i) <= endTime && x in CumulativeFrom(ts, i, endTime)
    ensures i < j <= |ts| && x == Prefix(ts, j) && Prefix(ts, j - 1) <= endTime
    decreases |ts| - i
  {
    var head := Prefix(ts, i + 1);
    if x == head {
      j := i + 1;
    } else {
      assert head <= endTime;
      assert x in CumulativeFrom(ts, i + 1, endTime);
      j := CumulativeFromSound(ts, i + 1, endTime, x);
    }
  }

  /** Every envelope point whose predecessor is not beyond the end is
      inserted. */
  lemma {:induction false} CumulativeFromComplete(ts: seq<nat>, i: nat, endTime: nat, j: nat)
    requires i < j <= |ts| && Prefix(ts, j - 1) <= endTime
    ensures Prefix(ts, j) in CumulativeFrom(ts, i, endTime)
    decreases |ts| - i
  {
    var head := Prefix(ts, i + 1);
    if j > i + 1 {
      PrefixMonotone(ts, i + 1, j - 1);
      assert head <= endTime;
      CumulativeFromComplete(ts, i + 1, endTime, j);
      assert CumulativeFrom(ts, i, endTime) == [head] + CumulativeFrom(ts, i + 1, endTime);
    }
  }

  /** The phase-coordinate entries, the position of the last of them, and
      the complete ordered boundary set. */
  datatype Boundaries = Boundaries(phaseEntries: seq<Entry>, endTime: nat, entries: seq<Entry>)

  /** The boundary set of the source's first pass. */
  function BuildBoundaries(cs: seq<PhaseCoordinate>, ampTimes: seq<nat>, freqTimes: seq<nat>,
                           g: nat, offset: nat): (r: Boundaries)
    requires NonNegativeTimes(cs) && |cs| > 0 && g > 0
    ensures Ordered(r.phaseEntries) && Ordered(r.entries) && |r.phaseEntries| > 0
    ensures r.endTime == r.phaseEntries[|r.phaseEntries| - 1].position
  {
    var ph := InsertAll([], PhaseEntries(cs));
    assert cs[0].timeSamples in Positions(ph) by {
      PositionsMembers(PhaseEntries(cs), cs[0].timeSamples);
    }
    var endTime := ph[|ph| - 1].position;
    var withGrid := InsertAll(ph, FreshEntries(GridSeq(offset, g, endTime)));
    var withAmp := InsertAll(withGrid, FreshEntries(CumulativeFrom(ampTimes, 0, endTime)));
    Boundaries(ph, endTime, InsertAll(withAmp, FreshEntries(CumulativeFrom(freqTimes, 0, endTime))))
  }

  /** The last entry of an ordered sequence holds its greatest key. */
  lemma OrderedLastIsGreatest(es: seq<Entry>)
    requires Ordered(es) && |es| > 0
    ensures forall p :: p in Positions(es) ==> p <= es[|es| - 1].position
  {
    forall p | p in Positions(es) ensures p <= es[|es| - 1].position {
      PositionsMembers(es, p);
    }
  }

  /** The partial ends at its last phase coordinate. */
  lemma EndTimeIsLastCoordinate(cs: seq<PhaseCoordinate>, ampTimes: seq<nat>, freqTimes: seq<nat>,
                                g: nat, offset: nat)
    requires ValidPhaseCoordinates(cs) && g > 0
    ensures NonNegativeTimes(cs)
    ensures BuildBoundaries(cs, ampTimes, freqTimes, g, offset).endTime == EndTimeSamples(cs)
  {
    EndTimeIsLatest(cs);
    var r := BuildBoundaries(cs, ampTimes, freqTimes, g, offset);
    var ph := r.phaseEntries;
    OrderedLastIsGreatest(ph);
    PositionsMembers(PhaseEntries(cs), EndTimeSamples(cs));
    assert PhaseEntries(cs)[|cs| - 1].position == EndTimeSamples(cs);
    PositionsMembers(ph, r.endTime);
    var i :| 0 <= i < |ph| && ph[i].position == r.endTime;
    PositionsMembers(PhaseEntries(cs), r.endTime);
    var j :| 0 <= j < |cs| && PhaseEntries(cs)[j].position == r.endTime;
  }

  /** The boundary set is exactly the union of the phase coordinate times,
      the grid lines `offset + k*g` before the end, and the envelope points up
      to and including the first one past the end. */
  lemma BoundarySet(cs: seq<PhaseCoordinate>, ampTimes: seq<nat>, freqTimes: seq<nat>,
                    g: nat, offset: nat, x: nat)
    requires NonNegativeTimes(cs) && |cs| > 0 && g > 0
    ensures var r := BuildBoundaries(cs, ampTimes, freqTimes, g, offset);
            x in Positions(r.entries) <==>
              || (exists i :: 0 <= i < |cs| && x == cs[i].timeSamples)
              || (x < r.endTime && exists k: nat :: x == GridLine(offset, g, k))
              || IsEnvelopePoint(ampTimes, r.endTime, x)
              || IsEnvelopePoint(freqTimes, r.endTime, x)
  {
    var r := BuildBoundaries(cs, ampTimes, freqTimes, g, offset);
    var e := r.endTime;
    var gs := FreshEntries(GridSeq(offset, g, e));
    var amps := FreshEntries(CumulativeFrom(ampTimes, 0, e));
    var fs := FreshEntries(CumulativeFrom(freqTimes, 0, e));
    assert Positions([]) == {};
    assert Positions(r.entries) == Positions(PhaseEntries(cs)) + Positions(gs) + Positions(amps) + Positions(fs);
    PositionsMembers(PhaseEntries(cs), x);
    if x in Positions(PhaseEntries(cs)) {
      var i :| 0 <= i < |cs| && PhaseEntries(cs)[i].position == x;
    }
    if exists i :: 0 <= i < |cs| && x == cs[i].timeSamples {
      var i :| 0 <= i < |cs| && x == cs[i].timeSamples;
      assert PhaseEntries(cs)[i].position == x;
    }
    GridSeqMembers(offset, g, e, x);
    FreshEntriesPositions(GridSeq(offset, g, e), x);
    EnvelopePointsInserted(ampTimes, e, x);
    EnvelopePointsInserted(freqTimes, e, x);
    assert x in Positions(gs) <==> (x < r.endTime && exists k: nat :: x == GridLine(offset, g, k));
    assert x in Positions(PhaseEntries(cs)) <==> exists i :: 0 <= i < |cs| && x == cs[i].timeSamples;
  }

  lemma EnvelopePointsInserted(ts: seq<nat>, e: nat, x: nat)
    ensures x in Positions(FreshEntries(CumulativeFrom(ts, 0, e))) <==> IsEnvelopePoint(ts, e, x)
  {
    CumulativeFromMembers(ts, 0, e, x);
    FreshEntriesPositions(CumulativeFrom(ts, 0, e), x);
    if IsEnvelopePoint(ts, e, x) {
      var j :| 1 <= j <= |ts| && x == Prefix(ts, j) && Prefix(ts, j - 1) <= e;
      assert 0 < j <= |ts| && x == Prefix(ts, j) && Prefix(ts, j - 1) <= e;
      assert exists j' :: 0 < j' <= |ts| && x == Prefix(ts, j') && Prefix(ts, j' - 1) <= e;
    }
    if x in CumulativeFrom(ts, 0, e) {
      var j :| 0 < j <= |ts| && x == Prefix(ts, j) && Prefix(ts, j - 1) <= e;
      assert 1 <= j <= |ts| && x == Prefix(ts, j) && Prefix(ts, j - 1) <= e;
      assert IsEnvelopePoint(ts, e, x);
    }
  }

  /** Every phase-coordinate entry, with its preset start phase, is still in
      the final set; every other entry is an unset builder. */
  lemma PhasePresetsSurvive(cs: seq<PhaseCoordinate>, ampTimes: seq<nat>, freqTimes: seq<nat>,
                            g: nat, offset: nat)
    requires NonNegativeTimes(cs) && |cs| > 0 && g > 0
    ensures var r := BuildBoundaries(cs, ampTimes, freqTimes, g, offset);
            && (forall x :: x in r.phaseEntries ==> x in r.entries)
            && (forall x :: x in r.entries ==> x in r.phaseEntries || x.paxel == Fresh)
  {
    var r := BuildBoundaries(cs, ampTimes, freqTimes, g, offset);
    var ph := r.phaseEntries;
    var e := r.endTime;
    var gs := FreshEntries(GridSeq(offset, g, e));
    var withGrid := InsertAll(ph, gs);
    var amps := FreshEntries(CumulativeFrom(ampTimes, 0, e));
    var withAmp := InsertAll(withGrid, amps);
    var fs := FreshEntries(CumulativeFrom(freqTimes, 0, e));
    InsertAllMembers(ph, gs);
    InsertAllMembers(withGrid, amps);
    InsertAllMembers(withAmp, fs);
  }

  /** The first coordinate is inserted first, so its entry always survives:
      the partial's initial phase is preset at position 0. */
  lemma FirstCoordinateKept(cs: seq<PhaseCoordinate>)
    requires NonNegativeTimes(cs) && |cs| > 0
    ensures PhaseEntry(cs[0]) in InsertAll([], PhaseEntries(cs))
  {
    var xs := PhaseEntries(cs);
    assert xs == [xs[0]] + xs[1..];
    InsertAllMembers(InsertEntry([], xs[0]), xs[1..]);
  }
}
