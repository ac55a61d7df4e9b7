/** Pass 3 of the grid mapper: every entry before the end time becomes a
    paxel placed in its grid cell, and the paxels are grouped into
    multipaxels, one per cell. Positions are shifted by the inverse offset
    so that the grid lines `offset + k*g` fall on cell boundaries; a
    multipaxel closes when the next entry lies on the next grid line or at
    the end time, where the pass stops. */
module PaxelLayout {
  import opened Wrappers
  import opened AudioTypes
  import opened PaxelBuilder
  import opened StageFill
  import opened GridBoundaries
  import opened CellArith

  /** The gap between the start of the first cell and the first audible
      sample: shifting by it moves every grid line onto a cell boundary. */
  function InverseOffset(g: nat, offset: nat): (r: nat)
    requires offset < g
    ensures r < g
    ensures offset + r == 0 || offset + r == g
    ensures r == 0 <==> offset == 0
  {
    (g - offset) % g
  }

  /** The amplitude, frequency and phase values of the ordered set after
      passes 1 and 2, entry by entry. */
  datatype Columns = Columns(amp: Lane, freq: Lane, phase: Lane)

  predicate ColumnsSized(v: Columns, n: nat) {
    Sized(v.amp, n) && Sized(v.freq, n) && Sized(v.phase, n)
  }

  /** The builder of entry `i` once pass 3 has placed it: the values of the
      earlier passes, a whole cell as duration, and a render window from the
      entry's position within its cell over its own duration. */
  function PlacedBuilder(pos: seq<nat>, v: Columns, g: nat, inv: nat, i: nat): (r: Builder)
    requires Increasing(pos) && ColumnsSized(v, |pos|) && g > 0 && i < |pos|
    ensures r.durationSamples == g && r.startSample < g
  {
    DurationsTile(pos, g);
    var start := Remainder(pos[i] + inv, g);
    Builder(v.freq.start[i], v.freq.end[i], v.amp.start[i], v.amp.end[i], v.phase.start[i], v.phase.end[i],
            g, start, start + Durations(pos, g)[i] - 1)
  }

  function Placed(pos: seq<nat>, v: Columns, g: nat, inv: nat, i: nat): Paxel
    requires Increasing(pos) && ColumnsSized(v, |pos|) && g > 0 && i < |pos|
  {
    ToPaxel(PlacedBuilder(pos, v, g, inv, i))
  }

  /** The placed paxels of entries `a..b-1`. */
  function PlacedRange(pos: seq<nat>, v: Columns, g: nat, inv: nat, a: nat, b: nat): (r: seq<Paxel>)
    requires Increasing(pos) && ColumnsSized(v, |pos|) && g > 0 && a <= b <= |pos|
    ensures |r| == b - a
    ensures forall j :: 0 <= j < b - a ==> r[j] == Placed(pos, v, g, inv, a + j)
  {
    seq(b - a, j requires 0 <= j < b - a => Placed(pos, v, g, inv, a + j))
  }

  /** The paxels of a run of multipaxels, in order. */
  function Flatten(ms: seq<MultiPaxel>): seq<Paxel> {
    if |ms| == 0 then [] else Flatten(ms[..|ms| - 1]) + ms[|ms| - 1].paxels
  }

  /** Where pass 3 would abort: a builder that cannot be finalised, a
      multipaxel or partial whose constructor check fails, an empty set, or
      a step past the last entry before the end time is met. */
  datatype LayoutError = Unfinished(cause: BuildError) | BrokenMultiPaxel | BrokenPartial | NoEntries | PastEnd

  function Emit(b: Builder): (r: Result<Paxel, LayoutError>)
    ensures r.Success? <==> Finalize(b).Success?
    ensures r.Success? ==> r.value == ToPaxel(b)
  {
    match Finalize(b)
    case Success(p) => Success(p)
    case Failure(e) => Failure(Unfinished(e))
  }

  /** The loop from entry `idx`, with `paxelEnd` the end of the current
      cell in shifted time, `cur` the paxels of the open multipaxel and
      `done` the closed ones. */
  function LayoutFrom(pos: seq<nat>, v: Columns, g: nat, inv: nat, endTime: nat, idx: nat, paxelEnd: nat,
                      cur: seq<Paxel>, done: seq<MultiPaxel>): (r: Result<seq<MultiPaxel>, LayoutError>)
    requires Increasing(pos) && ColumnsSized(v, |pos|) && g > 0 && idx < |pos|
    decreases |pos| - idx
  {
    var p :- Emit(PlacedBuilder(pos, v, g, inv, idx));
    var cur1 := cur + [p];
    if idx + 1 == |pos| then Failure(PastEnd)
    else
      var next := pos[idx + 1];
      if next == paxelEnd - inv || next == endTime then
        if !ValidMultiPaxel(MultiPaxel(cur1)) then Failure(BrokenMultiPaxel)
        else
          var done1 := done + [MultiPaxel(cur1)];
          if next == endTime then Success(done1)
          else LayoutFrom(pos, v, g, inv, endTime, idx + 1, paxelEnd + g, [], done1)
      else LayoutFrom(pos, v, g, inv, endTime, idx + 1, paxelEnd, cur1, done)
  }

  /** Pass 3 over the ordered set, ending at `endTime`. */
  function Layout(pos: seq<nat>, v: Columns, g: nat, offset: nat, endTime: nat): (r: Result<Partial, LayoutError>)
    requires Increasing(pos) && ColumnsSized(v, |pos|) && 0 < g && offset < g
    ensures r.Success? ==> ValidPartial(r.value)
    ensures |pos| == 0 ==> r == Failure(NoEntries)
  {
    if |pos| == 0 then Failure(NoEntries)
    else
      var mps :- LayoutFrom(pos, v, g, InverseOffset(g, offset), endTime, 0, g, [], []);
      if ValidPartial(Partial(mps)) then Success(Partial(mps)) else Failure(BrokenPartial)
  }

  /** The values of entry `i` are legal paxel values. */
  predicate ValuesOk(v: Columns, n: nat, i: nat)
    requires ColumnsSized(v, n) && i < n
  {
    && InAmplitudeRange(v.amp.start[i]) && InAmplitudeRange(v.amp.end[i])
    && v.freq.start[i] > 0.0 && v.freq.end[i] > 0.0
    && InPhaseRange(v.phase.start[i]) && InPhaseRange(v.phase.end[i])
  }

  /** Entry `k` starts on the values entry `k - 1` ends with. */
  predicate ValuesJoin(v: Columns, n: nat, k: nat)
    requires ColumnsSized(v, n) && 0 < k < n
  {
    && v.amp.end[k - 1] == v.amp.start[k]
    && v.freq.end[k - 1] == v.freq.start[k]
    && v.phase.end[k - 1] == v.phase.start[k]
  }

  /** Every grid line before the end time is a position of the set. */
  ghost predicate GridComplete(pos: seq<nat>, g: nat, offset: nat, endTime: nat) {
    forall k: nat :: GridLine(offset, g, k) < endTime ==> GridLine(offset, g, k) in pos
  }

  /** What the earlier passes hand to pass 3: the set starts at 0, holds the
      end time at entry `m` and every grid line before it; the cell length
      is a legal uint32 that is not the rogue value; and every entry before
      the end has legal values that join the entry before. */
  ghost predicate LayoutReady(pos: seq<nat>, v: Columns, g: nat, offset: nat, endTime: nat, m: nat) {
    && Increasing(pos) && ColumnsSized(v, |pos|)
    && 0 < m < |pos| && pos[0] == 0 && pos[m] == endTime
    && 0 < g < NO_VALUE_INT && offset < g
    && GridComplete(pos, g, offset, endTime)
    && (forall i :: 0 <= i < m ==> ValuesOk(v, |pos|, i))
    && (forall k :: 0 < k < m ==> ValuesJoin(v, |pos|, k))
  }

  /** Shifted back by the inverse offset, the end of cell `c` is a grid
      line. */
  lemma CellEndIsGridLine(g: nat, offset: nat, c: nat)
    requires offset < g
    ensures var line := CellStart(c, g) + g - InverseOffset(g, offset);
            line >= 0 && line == GridLine(offset, g, if offset == 0 then c + 1 else c)
  {
    CellStartIsProduct(c, g);
    CellStartIsProduct(c + 1, g);
  }

  /** An entry strictly before a position of the set is followed by an entry
      no later than it. */
  lemma NextNoLater(pos: seq<nat>, i: nat, c: nat)
    requires Increasing(pos) && i + 1 < |pos| && pos[i] < c && c in pos
    ensures pos[i + 1] <= c
  {
    var j :| 0 <= j < |pos| && pos[j] == c;
    assert i < j;
  }

  /** The grid line closing cell `c` is in the set if it comes before the
      end time. */
  lemma CellEndInSet(pos: seq<nat>, g: nat, offset: nat, endTime: nat, c: nat)
    requires GridComplete(pos, g, offset, endTime) && offset < g
    ensures var line := CellStart(c, g) + g - InverseOffset(g, offset);
            line >= 0 && (line < endTime ==> line in pos)
  {
    CellEndIsGridLine(g, offset, c);
  }

  /** An entry before the end time in shifted cell `c` ends inside that
      cell, and its position in the cell is its distance from the cell's
      start. */
  lemma CellWindow(pos: seq<nat>, g: nat, offset: nat, endTime: nat, m: nat, i: nat, c: nat)
    requires Increasing(pos) && GridComplete(pos, g, offset, endTime) && 0 < g && offset < g
    requires i < m < |pos| && pos[m] == endTime
    requires var inv := InverseOffset(g, offset); CellStart(c, g) <= pos[i] + inv < CellStart(c, g) + g
    ensures var inv := InverseOffset(g, offset);
            && pos[i + 1] + inv <= CellStart(c, g) + g
            && Remainder(pos[i] + inv, g) + CellStart(c, g) == pos[i] + inv
  {
    var inv := InverseOffset(g, offset);
    var line := CellStart(c, g) + g - inv;
    CellEndInSet(pos, g, offset, endTime, c);
    if line < endTime {
      NextNoLater(pos, i, line);
    } else {
      assert pos[i + 1] <= pos[m];
    }
    RemainderInCell(pos[i] + inv, c, g);
  }

  /** The paxel of an entry before the end time, in shifted cell `c`, lies
      inside that cell: its window starts at the entry's distance from the
      cell's start and ends before the next entry, which the next grid line
      does not precede. */
  lemma CellPaxel(pos: seq<nat>, v: Columns, g: nat, offset: nat, endTime: nat, m: nat, i: nat, c: nat)
    requires LayoutReady(pos, v, g, offset, endTime, m) && i < m
    requires var inv := InverseOffset(g, offset); CellStart(c, g) <= pos[i] + inv < CellStart(c, g) + g
    ensures var inv := InverseOffset(g, offset);
            var p := Placed(pos, v, g, inv, i);
            && pos[i + 1] + inv <= CellStart(c, g) + g
            && p.startSample + CellStart(c, g) == pos[i] + inv
            && p.endSample + CellStart(c, g) + 1 == pos[i + 1] + inv
            && ValidPaxel(p)
            && Complete(PlacedBuilder(pos, v, g, inv, i))
  {
    CellWindow(pos, g, offset, endTime, m, i, c);
    DurationsTile(pos, g);
    assert ValuesOk(v, |pos|, i);
  }

  /** On every entry the layout places, the strict check and the
      constructor's check agree: the window ends inside the buffer, so
      `Emit` succeeds exactly where the constructor would. */
  lemma EmitAgreesWithConstructor(pos: seq<nat>, v: Columns, g: nat, offset: nat, endTime: nat, m: nat, i: nat,
                                  c: nat)
    requires LayoutReady(pos, v, g, offset, endTime, m) && i < m
    requires var inv := InverseOffset(g, offset); CellStart(c, g) <= pos[i] + inv < CellStart(c, g) + g
    ensures var b := PlacedBuilder(pos, v, g, InverseOffset(g, offset), i);
            && b.endSample < b.durationSamples
            && FinalizeAsWritten(b) == Finalize(b) == Success(ToPaxel(b))
            && Emit(b) == Success(ToPaxel(b))
  {
    var b := PlacedBuilder(pos, v, g, InverseOffset(g, offset), i);
    CellPaxel(pos, v, g, offset, endTime, m, i, c);
    FinalizeAgrees(b);
  }

  /** Two consecutive entries in the same cell join within a multipaxel. */
  lemma SameCellJoins(pos: seq<nat>, v: Columns, g: nat, offset: nat, endTime: nat, m: nat, i: nat, c: nat)
    requires LayoutReady(pos, v, g, offset, endTime, m) && i + 1 < m
    requires var inv := InverseOffset(g, offset); CellStart(c, g) <= pos[i] + inv && pos[i + 1] + inv < CellStart(c, g) + g
    ensures var inv := InverseOffset(g, offset);
            JoinsWithin(Placed(pos, v, g, inv, i), Placed(pos, v, g, inv, i + 1))
  {
    CellPaxel(pos, v, g, offset, endTime, m, i, c);
    CellPaxel(pos, v, g, offset, endTime, m, i + 1, c);
    assert ValuesJoin(v, |pos|, i + 1);
  }

  /** An entry ending on the grid line that closes cell `c` fills its cell to
      the end, and the next entry starts the next cell at index 0. */
  lemma NextCellJoins(pos: seq<nat>, v: Columns, g: nat, offset: nat, endTime: nat, m: nat, i: nat, c: nat)
    requires LayoutReady(pos, v, g, offset, endTime, m) && i + 1 < m
    requires var inv := InverseOffset(g, offset); CellStart(c, g) <= pos[i] + inv && pos[i + 1] + inv == CellStart(c + 1, g)
    ensures var inv := InverseOffset(g, offset);
            JoinsAcross(Placed(pos, v, g, inv, i), Placed(pos, v, g, inv, i + 1))
  {
    CellPaxel(pos, v, g, offset, endTime, m, i, c);
    CellPaxel(pos, v, g, offset, endTime, m, i + 1, c + 1);
    assert ValuesJoin(v, |pos|, i + 1);
  }

  /** The entries `a..b-1` of one cell form a valid multipaxel. */
  lemma CellMultiPaxel(pos: seq<nat>, v: Columns, g: nat, offset: nat, endTime: nat, m: nat, a: nat, b: nat, c: nat)
    requires LayoutReady(pos, v, g, offset, endTime, m) && a < b <= m
    requires var inv := InverseOffset(g, offset); CellStart(c, g) <= pos[a] + inv && pos[b - 1] + inv < CellStart(c, g) + g
    ensures ValidMultiPaxel(MultiPaxel(PlacedRange(pos, v, g, InverseOffset(g, offset), a, b)))
  {
    var inv := InverseOffset(g, offset);
    var ps := PlacedRange(pos, v, g, inv, a, b);
    forall j | 0 <= j < |ps| ensures ValidPaxel(ps[j]) {
      assert pos[a] <= pos[a + j] <= pos[b - 1];
      CellPaxel(pos, v, g, offset, endTime, m, a + j, c);
    }
    forall j | 1 <= j < |ps| ensures JoinsWithin(ps[j - 1], ps[j]) {
      CellNeighboursJoin(pos, v, g, offset, endTime, m, a, b, c, a + j - 1);
    }
  }

  /** Neighbouring entries inside one cell give joining paxels. */
  lemma CellNeighboursJoin(pos: seq<nat>, v: Columns, g: nat, offset: nat, endTime: nat, m: nat, a: nat, b: nat,
                           c: nat, i: nat)
    requires LayoutReady(pos, v, g, offset, endTime, m) && a <= i && i + 1 < b <= m
    requires var inv := InverseOffset(g, offset); CellStart(c, g) <= pos[a] + inv && pos[b - 1] + inv < CellStart(c, g) + g
    ensures var inv := InverseOffset(g, offset);
            JoinsWithin(Placed(pos, v, g, inv, i), Placed(pos, v, g, inv, i + 1))
  {
    assert pos[a] <= pos[i] < pos[i + 1] <= pos[b - 1];
    SameCellJoins(pos, v, g, offset, endTime, m, i, c);
  }

  /** One more placed paxel at the end of a range. */
  lemma PlacedRangeSnoc(pos: seq<nat>, v: Columns, g: nat, inv: nat, a: nat, b: nat)
    requires Increasing(pos) && ColumnsSized(v, |pos|) && g > 0 && a <= b < |pos|
    ensures PlacedRange(pos, v, g, inv, a, b + 1) == PlacedRange(pos, v, g, inv, a, b) + [Placed(pos, v, g, inv, b)]
  {
  }

  /** Closed multipaxels that are each valid and join across every
      boundary: a valid partial once there is at least one. */
  predicate Chained(ms: seq<MultiPaxel>) {
    && (forall i :: 0 <= i < |ms| ==> ValidMultiPaxel(ms[i]))
    && (forall i :: 1 <= i < |ms| ==> JoinsAcross(LastPaxel(ms[i - 1]), FirstPaxel(ms[i])))
  }

  /** A valid multipaxel that joins the last closed one extends the chain. */
  lemma ChainedSnoc(ms: seq<MultiPaxel>, x: MultiPaxel)
    requires Chained(ms) && ValidMultiPaxel(x)
    requires |ms| > 0 ==> JoinsAcross(LastPaxel(ms[|ms| - 1]), FirstPaxel(x))
    ensures Chained(ms + [x])
  {
  }

  /** The loop state before entry `idx` in shifted cell `c`: the open
      multipaxel holds the placed paxels of this cell so far, and the closed
      ones chain up to the first of them. */
  ghost predicate LoopReady(pos: seq<nat>, v: Columns, g: nat, offset: nat, endTime: nat, m: nat,
                            idx: nat, c: nat, cur: seq<Paxel>, done: seq<MultiPaxel>)
  {
    && LayoutReady(pos, v, g, offset, endTime, m) && idx < m && |cur| <= idx
    && var inv := InverseOffset(g, offset);
       var s := idx - |cur|;
       && CellStart(c, g) <= pos[idx] + inv < CellStart(c, g) + g
       && cur == PlacedRange(pos, v, g, inv, s, idx)
       && (|cur| > 0 ==> CellStart(c, g) <= pos[s] + inv)
       && Chained(done)
       && (|done| > 0 ==> JoinsAcross(LastPaxel(done[|done| - 1]), Placed(pos, v, g, inv, s)))
  }

  /** One turn of the loop that closes the open multipaxel. */
  lemma LayoutFromCloses(pos: seq<nat>, v: Columns, g: nat, inv: nat, endTime: nat, idx: nat, paxelEnd: nat,
                         cur: seq<Paxel>, done: seq<MultiPaxel>, p: Paxel)
    requires Increasing(pos) && ColumnsSized(v, |pos|) && g > 0 && idx + 1 < |pos|
    requires Emit(PlacedBuilder(pos, v, g, inv, idx)) == Success(p)
    requires pos[idx + 1] == paxelEnd - inv || pos[idx + 1] == endTime
    requires ValidMultiPaxel(MultiPaxel(cur + [p]))
    ensures var done1 := done + [MultiPaxel(cur + [p])];
            LayoutFrom(pos, v, g, inv, endTime, idx, paxelEnd, cur, done)
              == if pos[idx + 1] == endTime then Success(done1)
                 else LayoutFrom(pos, v, g, inv, endTime, idx + 1, paxelEnd + g, [], done1)
  {
  }

  /** One turn of the loop that keeps the multipaxel open. */
  lemma LayoutFromStays(pos: seq<nat>, v: Columns, g: nat, inv: nat, endTime: nat, idx: nat, paxelEnd: nat,
                        cur: seq<Paxel>, done: seq<MultiPaxel>, p: Paxel)
    requires Increasing(pos) && ColumnsSized(v, |pos|) && g > 0 && idx + 1 < |pos|
    requires Emit(PlacedBuilder(pos, v, g, inv, idx)) == Success(p)
    requires pos[idx + 1] != paxelEnd - inv && pos[idx + 1] != endTime
    ensures LayoutFrom(pos, v, g, inv, endTime, idx, paxelEnd, cur, done)
              == LayoutFrom(pos, v, g, inv, endTime, idx + 1, paxelEnd, cur + [p], done)
  {
  }

  /** The loop succeeds from every such state, with a chain of at least one
      multipaxel. */
  lemma {:induction false} LayoutFromSucceeds(pos: seq<nat>, v: Columns, g: nat, offset: nat, endTime: nat, m: nat,
                                              idx: nat, c: nat, paxelEnd: nat, cur: seq<Paxel>, done: seq<MultiPaxel>)
    requires LoopReady(pos, v, g, offset, endTime, m, idx, c, cur, done) && paxelEnd == CellStart(c + 1, g)
    ensures var r := LayoutFrom(pos, v, g, InverseOffset(g, offset), endTime, idx, paxelEnd, cur, done);
            r.Success? && |r.value| > 0 && Chained(r.value)
    decreases m - idx, 2
  {
    var inv := InverseOffset(g, offset);
    if pos[idx + 1] == paxelEnd - inv || pos[idx + 1] == endTime {
      LayoutClosesHere(pos, v, g, offset, endTime, m, idx, c, paxelEnd, cur, done);
    } else {
      LayoutStaysInCell(pos, v, g, offset, endTime, m, idx, c, paxelEnd, cur, done);
    }
  }

  /** Closing the open multipaxel after entry `idx` extends the chain. */
  lemma CloseExtendsChain(pos: seq<nat>, v: Columns, g: nat, offset: nat, endTime: nat, m: nat,
                          idx: nat, c: nat, cur: seq<Paxel>, done: seq<MultiPaxel>)
    requires LoopReady(pos, v, g, offset, endTime, m, idx, c, cur, done)
    ensures var inv := InverseOffset(g, offset);
            var x := MultiPaxel(cur + [Placed(pos, v, g, inv, idx)]);
            && Emit(PlacedBuilder(pos, v, g, inv, idx)).Success?
            && ValidMultiPaxel(x) && Chained(done + [x]) && LastPaxel(x) == Placed(pos, v, g, inv, idx)
  {
    var inv := InverseOffset(g, offset);
    var s := idx - |cur|;
    CellPaxel(pos, v, g, offset, endTime, m, idx, c);
    PlacedRangeSnoc(pos, v, g, inv, s, idx);
    var cur1 := PlacedRange(pos, v, g, inv, s, idx + 1);
    CellMultiPaxel(pos, v, g, offset, endTime, m, s, idx + 1, c);
    assert cur1[0] == Placed(pos, v, g, inv, s);
    ChainedSnoc(done, MultiPaxel(cur1));
  }

  /** When the next entry lies on the grid line closing the cell, or at the
      end time, the open multipaxel closes and extends the chain. */
  lemma {:induction false} LayoutClosesHere(pos: seq<nat>, v: Columns, g: nat, offset: nat, endTime: nat, m: nat,
                                            idx: nat, c: nat, paxelEnd: nat, cur: seq<Paxel>, done: seq<MultiPaxel>)
    requires LoopReady(pos, v, g, offset, endTime, m, idx, c, cur, done) && paxelEnd == CellStart(c + 1, g)
    requires var inv := InverseOffset(g, offset); pos[idx + 1] == paxelEnd - inv || pos[idx + 1] == endTime
    ensures var r := LayoutFrom(pos, v, g, InverseOffset(g, offset), endTime, idx, paxelEnd, cur, done);
            r.Success? && |r.value| > 0 && Chained(r.value)
    decreases m - idx, 1
  {
    var inv := InverseOffset(g, offset);
    var p := Placed(pos, v, g, inv, idx);
    CloseExtendsChain(pos, v, g, offset, endTime, m, idx, c, cur, done);
    LayoutFromCloses(pos, v, g, inv, endTime, idx, paxelEnd, cur, done, p);
    var done1 := done + [MultiPaxel(cur + [p])];
    if pos[idx + 1] != endTime {
      LayoutClosesCell(pos, v, g, offset, endTime, m, idx, c, paxelEnd + g, done1);
    }
  }

  /** When the next entry lies inside the same cell, the loop goes on with
      the open multipaxel one paxel longer. */
  lemma {:induction false} LayoutStaysInCell(pos: seq<nat>, v: Columns, g: nat, offset: nat, endTime: nat, m: nat,
                                             idx: nat, c: nat, paxelEnd: nat, cur: seq<Paxel>, done: seq<MultiPaxel>)
    requires LoopReady(pos, v, g, offset, endTime, m, idx, c, cur, done) && paxelEnd == CellStart(c + 1, g)
    requires var inv := InverseOffset(g, offset); pos[idx + 1] != paxelEnd - inv && pos[idx + 1] != endTime
    ensures var r := LayoutFrom(pos, v, g, InverseOffset(g, offset), endTime, idx, paxelEnd, cur, done);
            r.Success? && |r.value| > 0 && Chained(r.value)
    decreases m - idx, 1
  {
    var inv := InverseOffset(g, offset);
    var p := Placed(pos, v, g, inv, idx);
    CellPaxel(pos, v, g, offset, endTime, m, idx, c);
    LayoutFromStays(pos, v, g, inv, endTime, idx, paxelEnd, cur, done, p);
    assert pos[idx + 1] <= pos[m];
    LoopReadyNext(pos, v, g, offset, endTime, m, idx, c, cur, done);
    LayoutFromSucceeds(pos, v, g, offset, endTime, m, idx + 1, c, paxelEnd, cur + [p], done);
  }

  /** The loop invariant carries over to the next entry of the same cell. */
  lemma LoopReadyNext(pos: seq<nat>, v: Columns, g: nat, offset: nat, endTime: nat, m: nat,
                      idx: nat, c: nat, cur: seq<Paxel>, done: seq<MultiPaxel>)
    requires LoopReady(pos, v, g, offset, endTime, m, idx, c, cur, done) && idx + 1 < m
    requires pos[idx + 1] + InverseOffset(g, offset) < CellStart(c, g) + g
    ensures LoopReady(pos, v, g, offset, endTime, m, idx + 1, c, cur + [Placed(pos, v, g, InverseOffset(g, offset), idx)], done)
  {
    var inv := InverseOffset(g, offset);
    var s := idx - |cur|;
    var cur1 := cur + [Placed(pos, v, g, inv, idx)];
    PlacedRangeSnoc(pos, v, g, inv, s, idx);
    assert idx + 1 - |cur1| == s;
    assert pos[idx] < pos[idx + 1];
    assert CellStart(c, g) <= pos[s] + inv by {
      if |cur| > 0 {
      } else {
        assert s == idx;
      }
    }
  }

  /** After the multipaxel of cell `c` closes on a grid line, the loop goes
      on from the next entry, which starts cell `c + 1`. */
  lemma {:induction false} LayoutClosesCell(pos: seq<nat>, v: Columns, g: nat, offset: nat, endTime: nat, m: nat,
                                            idx: nat, c: nat, paxelEnd: nat, done1: seq<MultiPaxel>)
    requires LayoutReady(pos, v, g, offset, endTime, m) && idx + 1 < m && paxelEnd == CellStart(c + 2, g)
    requires var inv := InverseOffset(g, offset);
             && CellStart(c, g) <= pos[idx] + inv
             && pos[idx + 1] + inv == CellStart(c + 1, g)
             && Chained(done1) && |done1| > 0
             && LastPaxel(done1[|done1| - 1]) == Placed(pos, v, g, inv, idx)
    ensures var r := LayoutFrom(pos, v, g, InverseOffset(g, offset), endTime, idx + 1, paxelEnd, [], done1);
            r.Success? && |r.value| > 0 && Chained(r.value)
    decreases m - idx, 0
  {
    NextCellJoins(pos, v, g, offset, endTime, m, idx, c);
    LayoutFromSucceeds(pos, v, g, offset, endTime, m, idx + 1, c + 1, paxelEnd, [], done1);
  }

  /** Pass 3 succeeds on everything the earlier passes hand it, and yields a
      valid partial. */
  lemma LayoutSucceeds(pos: seq<nat>, v: Columns, g: nat, offset: nat, endTime: nat, m: nat)
    requires LayoutReady(pos, v, g, offset, endTime, m)
    ensures Layout(pos, v, g, offset, endTime).Success?
  {
    var inv := InverseOffset(g, offset);
    assert CellStart(0, g) == 0 && CellStart(1, g) == g;
    assert LoopReady(pos, v, g, offset, endTime, m, 0, 0, [], []);
    LayoutFromSucceeds(pos, v, g, offset, endTime, m, 0, 0, g, [], []);
  }

  lemma FlattenSnoc(ms: seq<MultiPaxel>, x: MultiPaxel)
    ensures Flatten(ms + [x]) == Flatten(ms) + x.paxels
  {
    assert (ms + [x])[..|ms|] == ms;
  }

  /** Whatever the loop closes, read in order, is the placed paxels of every
      entry before the end time. */
  lemma {:induction false} LayoutFromFlat(pos: seq<nat>, v: Columns, g: nat, inv: nat, endTime: nat, m: nat,
                                          idx: nat, paxelEnd: nat, cur: seq<Paxel>, done: seq<MultiPaxel>)
    requires Increasing(pos) && ColumnsSized(v, |pos|) && g > 0
    requires idx < m < |pos| && pos[m] == endTime
    requires Flatten(done) + cur == PlacedRange(pos, v, g, inv, 0, idx)
    ensures var r := LayoutFrom(pos, v, g, inv, endTime, idx, paxelEnd, cur, done);
            r.Success? ==> Flatten(r.value) == PlacedRange(pos, v, g, inv, 0, m)
    decreases |pos| - idx, 1
  {
    if Emit(PlacedBuilder(pos, v, g, inv, idx)).Success? {
      PlacedRangeSnoc(pos, v, g, inv, 0, idx);
      if pos[idx + 1] == paxelEnd - inv || pos[idx + 1] == endTime {
        FlatCloses(pos, v, g, inv, endTime, m, idx, paxelEnd, cur, done);
      } else {
        FlatStays(pos, v, g, inv, endTime, m, idx, paxelEnd, cur, done);
      }
    }
  }

  /** The flattening invariant across a turn that closes a multipaxel. */
  lemma {:induction false} FlatCloses(pos: seq<nat>, v: Columns, g: nat, inv: nat, endTime: nat, m: nat,
                                      idx: nat, paxelEnd: nat, cur: seq<Paxel>, done: seq<MultiPaxel>)
    requires Increasing(pos) && ColumnsSized(v, |pos|) && g > 0
    requires idx < m < |pos| && pos[m] == endTime
    requires Flatten(done) + cur == PlacedRange(pos, v, g, inv, 0, idx)
    requires Emit(PlacedBuilder(pos, v, g, inv, idx)).Success?
    requires pos[idx + 1] == paxelEnd - inv || pos[idx + 1] == endTime
    ensures var r := LayoutFrom(pos, v, g, inv, endTime, idx, paxelEnd, cur, done);
            r.Success? ==> Flatten(r.value) == PlacedRange(pos, v, g, inv, 0, m)
    decreases |pos| - idx, 0
  {
    var p := Placed(pos, v, g, inv, idx);
    var cur1 := cur + [p];
    if ValidMultiPaxel(MultiPaxel(cur1)) {
      PlacedRangeSnoc(pos, v, g, inv, 0, idx);
      LayoutFromCloses(pos, v, g, inv, endTime, idx, paxelEnd, cur, done, p);
      var done1 := done + [MultiPaxel(cur1)];
      FlattenClose(done, cur, p, PlacedRange(pos, v, g, inv, 0, idx + 1));
      if pos[idx + 1] != endTime {
        assert pos[idx + 1] <= pos[m];
        FlatFromNextCell(pos, v, g, inv, endTime, m, idx + 1, paxelEnd + g, done1);
      }
    } else {
      LayoutFromBreaks(pos, v, g, inv, endTime, idx, paxelEnd, cur, done, p);
    }
  }

  /** A turn that would close an invalid multipaxel aborts the loop. */
  lemma LayoutFromBreaks(pos: seq<nat>, v: Columns, g: nat, inv: nat, endTime: nat, idx: nat, paxelEnd: nat,
                         cur: seq<Paxel>, done: seq<MultiPaxel>, p: Paxel)
    requires Increasing(pos) && ColumnsSized(v, |pos|) && g > 0 && idx + 1 < |pos|
    requires Emit(PlacedBuilder(pos, v, g, inv, idx)) == Success(p)
    requires pos[idx + 1] == paxelEnd - inv || pos[idx + 1] == endTime
    requires !ValidMultiPaxel(MultiPaxel(cur + [p]))
    ensures LayoutFrom(pos, v, g, inv, endTime, idx, paxelEnd, cur, done) == Failure(BrokenMultiPaxel)
  {
  }

  /** Closing the open multipaxel after appending `p` keeps the flattened
      run unchanged. */
  lemma FlattenClose(done: seq<MultiPaxel>, cur: seq<Paxel>, p: Paxel, whole: seq<Paxel>)
    requires Flatten(done) + cur + [p] == whole
    ensures Flatten(done + [MultiPaxel(cur + [p])]) + [] == whole
  {
    FlattenSnoc(done, MultiPaxel(cur + [p]));
  }

  /** The flattening invariant at the first entry of a new cell. */
  lemma {:induction false} FlatFromNextCell(pos: seq<nat>, v: Columns, g: nat, inv: nat, endTime: nat, m: nat,
                                            idx: nat, paxelEnd: nat, done: seq<MultiPaxel>)
    requires Increasing(pos) && ColumnsSized(v, |pos|) && g > 0
    requires idx <= m < |pos| && pos[m] == endTime && pos[idx] != endTime
    requires Flatten(done) + [] == PlacedRange(pos, v, g, inv, 0, idx)
    ensures var r := LayoutFrom(pos, v, g, inv, endTime, idx, paxelEnd, [], done);
            r.Success? ==> Flatten(r.value) == PlacedRange(pos, v, g, inv, 0, m)
    decreases |pos| - idx, 2
  {
    LayoutFromFlat(pos, v, g, inv, endTime, m, idx, paxelEnd, [], done);
  }

  /** The flattening invariant across a turn that keeps the multipaxel
      open. */
  lemma {:induction false} FlatStays(pos: seq<nat>, v: Columns, g: nat, inv: nat, endTime: nat, m: nat,
                                     idx: nat, paxelEnd: nat, cur: seq<Paxel>, done: seq<MultiPaxel>)
    requires Increasing(pos) && ColumnsSized(v, |pos|) && g > 0
    requires idx < m < |pos| && pos[m] == endTime
    requires Flatten(done) + cur == PlacedRange(pos, v, g, inv, 0, idx)
    requires Emit(PlacedBuilder(pos, v, g, inv, idx)).Success?
    requires pos[idx + 1] != paxelEnd - inv && pos[idx + 1] != endTime
    ensures var r := LayoutFrom(pos, v, g, inv, endTime, idx, paxelEnd, cur, done);
            r.Success? ==> Flatten(r.value) == PlacedRange(pos, v, g, inv, 0, m)
    decreases |pos| - idx, 0
  {
    var p := Placed(pos, v, g, inv, idx);
    PlacedRangeSnoc(pos, v, g, inv, 0, idx);
    LayoutFromStays(pos, v, g, inv, endTime, idx, paxelEnd, cur, done, p);
    assert Flatten(done) + (cur + [p]) == PlacedRange(pos, v, g, inv, 0, idx + 1);
    assert pos[idx + 1] <= pos[m];
    LayoutFromFlat(pos, v, g, inv, endTime, m, idx + 1, paxelEnd, cur + [p], done);
  }

  /** A partial that pass 3 yields is the placed paxel of every entry before
      the end time, each exactly once and in order, cut into multipaxels. */
  lemma LayoutFlattens(pos: seq<nat>, v: Columns, g: nat, offset: nat, endTime: nat, m: nat)
    requires Increasing(pos) && ColumnsSized(v, |pos|) && 0 < g && offset < g
    requires 0 < m < |pos| && pos[m] == endTime
    ensures var r := Layout(pos, v, g, offset, endTime);
            r.Success? ==> Flatten(r.value.multiPaxels) == PlacedRange(pos, v, g, InverseOffset(g, offset), 0, m)
  {
    assert Flatten([]) + [] == PlacedRange(pos, v, g, InverseOffset(g, offset), 0, 0);
    LayoutFromFlat(pos, v, g, InverseOffset(g, offset), endTime, m, 0, g, [], []);
  }

  /** The first paxel of a run of multipaxels is the first paxel of the
      first of them. */
  lemma {:induction false} FlattenFirst(ms: seq<MultiPaxel>)
    requires |ms| > 0 && |ms[0].paxels| > 0
    ensures |Flatten(ms)| > 0 && Flatten(ms)[0] == ms[0].paxels[0]
    decreases |ms|
  {
    if |ms| > 1 {
      var init := ms[..|ms| - 1];
      assert init[0] == ms[0];
      FlattenFirst(init);
    }
  }

  /** The partial starts with the paxel of entry 0: a whole cell long, with
      its render window opening at the inverse offset. */
  lemma LayoutFirstPaxel(pos: seq<nat>, v: Columns, g: nat, offset: nat, endTime: nat, m: nat)
    requires Increasing(pos) && ColumnsSized(v, |pos|) && 0 < g && offset < g
    requires 0 < m < |pos| && pos[0] == 0 && pos[m] == endTime
    ensures var r := Layout(pos, v, g, offset, endTime);
            r.Success? ==> && FirstPaxel(r.value.multiPaxels[0]) == Placed(pos, v, g, InverseOffset(g, offset), 0)
                           && CellLength(r.value) == g
                           && FirstPaxel(r.value.multiPaxels[0]).startSample == InverseOffset(g, offset)
  {
    var r := Layout(pos, v, g, offset, endTime);
    if r.Success? {
      var inv := InverseOffset(g, offset);
      LayoutFlattens(pos, v, g, offset, endTime, m);
      FlattenFirst(r.value.multiPaxels);
      assert Flatten(r.value.multiPaxels)[0] == Placed(pos, v, g, inv, 0);
      RemainderInCell(inv, 0, g);
    }
  }
}
