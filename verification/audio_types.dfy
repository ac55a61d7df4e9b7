/** The immutable specification types of the renderer: a paxel, a multipaxel
    (a run of paxels sharing one grid cell), a partial (a run of multipaxels)
    and a multi-partial bundle. Every C++ constructor `assert` becomes a
    validity predicate here, in two versions for the paxel's render window:
    the `...AsWritten` predicates bound it as the constructor does (the
    window may end one past the buffer), and the plain ones, which the rest
    of the model uses, keep it inside the buffer as the renderer needs. The
    two differ only in the last paxel of a partial. */
module AudioTypes {

  /** The double constant `PI` of the source, as an exact decimal. */
  const PI: real := 3.14159265358979323846
  const TWO_PI: real := 2.0 * PI
  /** Rogue phase value that marks a "natural" phase coordinate. */
  const NATURAL_PHASE: real := -999999999.0
  /** Largest magnitude of a 24-bit paxel sample. */
  const MAX_SAMPLE_PAXEL_INT: int := 0x7FFFFF
  const PAXEL_BYTES_PER_SAMPLE: nat := 3
  const PAXEL_BIT_DEPTH: nat := PAXEL_BYTES_PER_SAMPLE * 8
  const SAMPLE_RATE: nat := 96000

  /** The numeric audio sample types a PCM conversion may be asked for. */
  datatype AudioSampleType = PaxelFP | PaxelInt | PaxelBundleInt | FullRange | Scaled

  /** One linear segment of a partial inside a grid cell of `durationSamples`
      samples; audio is rendered at cell indices `startSample..endSample`. */
  datatype Paxel = Paxel(
    startFrequency: real,
    endFrequency: real,
    startAmplitude: real,
    endAmplitude: real,
    startPhase: real,
    endPhase: real,
    durationSamples: nat,
    startSample: nat,
    endSample: nat)

  datatype MultiPaxel = MultiPaxel(paxels: seq<Paxel>)

  datatype Partial = Partial(multiPaxels: seq<MultiPaxel>)

  datatype MultiPartial = MultiPartial(partials: seq<Partial>)

  predicate InAmplitudeRange(a: real) {
    -1.0 <= a <= 1.0
  }

  /** `x` lies between `a` and `b`, in whichever order they come. */
  predicate Between(x: real, a: real, b: real) {
    (a <= x <= b) || (b <= x <= a)
  }

  /** A part of a positive whole is a fraction in [0, 1]. */
  lemma FractionAtMostOne(a: real, n: real)
    requires 0.0 <= a <= n && n > 0.0
    ensures 0.0 <= a / n <= 1.0
  {
    assert a / n * n == a;
  }

  predicate InPhaseRange(ph: real) {
    0.0 <= ph <= TWO_PI
  }

  /** The value-range part of the paxel invariant, shared by both versions of
      the sample-window bound below. */
  predicate ValidPaxelValues(p: Paxel) {
    && InAmplitudeRange(p.startAmplitude)
    && InAmplitudeRange(p.endAmplitude)
    && InPhaseRange(p.startPhase)
    && InPhaseRange(p.endPhase)
    && p.startFrequency > 0.0
    && p.endFrequency > 0.0
  }

  /** The paxel invariant exactly as the constructor asserts it: the render
      window may end at index `durationSamples`, one past the buffer. */
  predicate ValidPaxelAsWritten(p: Paxel) {
    && p.durationSamples > 0
    && p.startSample <= p.durationSamples
    && p.startSample <= p.endSample <= p.durationSamples
    && ValidPaxelValues(p)
  }

  /** The paxel invariant as the renderer needs it: the render window lies
      inside the `durationSamples`-long buffer. */
  predicate ValidPaxel(p: Paxel) {
    && p.durationSamples > 0
    && p.startSample <= p.endSample < p.durationSamples
    && ValidPaxelValues(p)
  }

  /** `b` follows `a` inside one multipaxel without a gap or a jump in
      frequency, phase or amplitude. */
  predicate JoinsWithin(a: Paxel, b: Paxel) {
    && b.durationSamples == a.durationSamples
    && b.startSample == a.endSample + 1
    && b.startFrequency == a.endFrequency
    && b.startPhase == a.endPhase
    && b.startAmplitude == a.endAmplitude
  }

  predicate ValidMultiPaxel(m: MultiPaxel) {
    && |m.paxels| > 0
    && (forall i :: 0 <= i < |m.paxels| ==> ValidPaxel(m.paxels[i]))
    && (forall i :: 1 <= i < |m.paxels| ==> JoinsWithin(m.paxels[i - 1], m.paxels[i]))
  }

  /** The multipaxel constructor's check, over the constructor's paxel
      window. */
  predicate ValidMultiPaxelAsWritten(m: MultiPaxel) {
    && |m.paxels| > 0
    && (forall i :: 0 <= i < |m.paxels| ==> ValidPaxelAsWritten(m.paxels[i]))
    && (forall i :: 1 <= i < |m.paxels| ==> JoinsWithin(m.paxels[i - 1], m.paxels[i]))
  }

  function FirstPaxel(m: MultiPaxel): Paxel
    requires |m.paxels| > 0
  {
    m.paxels[0]
  }

  function LastPaxel(m: MultiPaxel): Paxel
    requires |m.paxels| > 0
  {
    m.paxels[|m.paxels| - 1]
  }

  /** The front paxel of one multipaxel continues the back paxel of the
      previous one: same cell length, continuous values, the back paxel fills
      its cell to the end and the front paxel starts at index 0. */
  predicate JoinsAcross(back: Paxel, front: Paxel) {
    && front.durationSamples == back.durationSamples
    && front.startFrequency == back.endFrequency
    && front.startAmplitude == back.endAmplitude
    && front.startPhase == back.endPhase
    && back.endSample == back.durationSamples - 1
    && front.startSample == 0
  }

  predicate ValidPartial(p: Partial) {
    && |p.multiPaxels| > 0
    && (forall i :: 0 <= i < |p.multiPaxels| ==> ValidMultiPaxel(p.multiPaxels[i]))
    && (forall i :: 1 <= i < |p.multiPaxels| ==>
          JoinsAcross(LastPaxel(p.multiPaxels[i - 1]), FirstPaxel(p.multiPaxels[i])))
  }

  /** The partial constructor's check, over the constructor's multipaxel
      check. */
  predicate ValidPartialAsWritten(p: Partial) {
    && |p.multiPaxels| > 0
    && (forall i :: 0 <= i < |p.multiPaxels| ==> ValidMultiPaxelAsWritten(p.multiPaxels[i]))
    && (forall i :: 1 <= i < |p.multiPaxels| ==>
          JoinsAcross(LastPaxel(p.multiPaxels[i - 1]), FirstPaxel(p.multiPaxels[i])))
  }

  predicate ValidMultiPartial(mp: MultiPartial) {
    && |mp.partials| > 0
    && forall i :: 0 <= i < |mp.partials| ==> ValidPartial(mp.partials[i])
  }

  /** The cell length of a partial, read from its first paxel. */
  function CellLength(p: Partial): nat
    requires ValidPartial(p)
  {
    FirstPaxel(p.multiPaxels[0]).durationSamples
  }

  /** A multipaxel of one paxel is valid exactly when that paxel is, under
      either window bound: the join checks start at index 1. */
  lemma SingletonMultiPaxel(x: Paxel)
    ensures ValidMultiPaxel(MultiPaxel([x])) <==> ValidPaxel(x)
    ensures ValidMultiPaxelAsWritten(MultiPaxel([x])) <==> ValidPaxelAsWritten(x)
  {
    assert MultiPaxel([x]).paxels[0] == x;
  }

  /** A partial of one multipaxel is valid exactly when that multipaxel is,
      under either window bound. */
  lemma SingletonPartial(m: MultiPaxel)
    ensures ValidPartial(Partial([m])) <==> ValidMultiPaxel(m)
    ensures ValidPartialAsWritten(Partial([m])) <==> ValidMultiPaxelAsWritten(m)
  {
    assert Partial([m]).multiPaxels[0] == m;
  }

  /** The strict window is the constructor's window without its last
      index. */
  lemma StrictWindow(p: Paxel)
    ensures ValidPaxel(p) <==> ValidPaxelAsWritten(p) && p.endSample < p.durationSamples
  {
  }

  /** Under the constructor's check only the last paxel of a multipaxel can
      end one past the buffer: every other one is followed by a paxel that
      starts inside the same cell. */
  lemma MultiPaxelOverrunIsLast(m: MultiPaxel)
    requires ValidMultiPaxelAsWritten(m)
    ensures ValidMultiPaxel(m) <==> LastPaxel(m).endSample < LastPaxel(m).durationSamples
  {
    var n := |m.paxels|;
    if LastPaxel(m).endSample < LastPaxel(m).durationSamples {
      forall i | 0 <= i < n ensures ValidPaxel(m.paxels[i]) {
        if i < n - 1 {
          assert JoinsWithin(m.paxels[i], m.paxels[i + 1]);
          assert ValidPaxelAsWritten(m.paxels[i + 1]);
        }
      }
    }
  }

  /** Under the constructor's checks only the last paxel of a partial can
      end one past the buffer: every earlier multipaxel fills its cell up to
      the buffer's last index. */
  lemma PartialOverrunIsLast(p: Partial)
    requires ValidPartialAsWritten(p)
    ensures var back := LastPaxel(p.multiPaxels[|p.multiPaxels| - 1]);
            ValidPartial(p) <==> back.endSample < back.durationSamples
  {
    var n := |p.multiPaxels|;
    MultiPaxelOverrunIsLast(p.multiPaxels[n - 1]);
    var back := LastPaxel(p.multiPaxels[n - 1]);
    if back.endSample < back.durationSamples {
      forall i | 0 <= i < n ensures ValidMultiPaxel(p.multiPaxels[i]) {
        MultiPaxelOverrunIsLast(p.multiPaxels[i]);
        if i < n - 1 {
          assert JoinsAcross(LastPaxel(p.multiPaxels[i]), FirstPaxel(p.multiPaxels[i + 1]));
          assert ValidPaxelAsWritten(LastPaxel(p.multiPaxels[i]));
        }
      }
    }
  }

  /** Every paxel of a valid multipaxel has the first paxel's cell length. */
  lemma {:induction false} MultiPaxelSharedDuration(m: MultiPaxel, j: nat)
    requires ValidMultiPaxel(m)
    requires j < |m.paxels|
    ensures m.paxels[j].durationSamples == m.paxels[0].durationSamples
  {
    if j > 0 {
      MultiPaxelSharedDuration(m, j - 1);
      assert JoinsWithin(m.paxels[j - 1], m.paxels[j]);
    }
  }

  /** The render windows of a valid multipaxel are ordered and disjoint: a
      later paxel starts after every earlier one ends. */
  lemma {:induction false} MultiPaxelWindowsOrdered(m: MultiPaxel, i: nat, j: nat)
    requires ValidMultiPaxel(m)
    requires i < j < |m.paxels|
    ensures m.paxels[i].endSample < m.paxels[j].startSample
  {
    assert JoinsWithin(m.paxels[j - 1], m.paxels[j]);
    if i < j - 1 {
      MultiPaxelWindowsOrdered(m, i, j - 1);
      assert ValidPaxel(m.paxels[j - 1]);
    }
  }

  /** In a valid partial every paxel has one and the same cell length: the
      within-multipaxel and across-boundary checks chain together. */
  lemma {:induction false} PartialSharedDuration(p: Partial, i: nat, j: nat)
    requires ValidPartial(p)
    requires i < |p.multiPaxels| && j < |p.multiPaxels[i].paxels|
    ensures p.multiPaxels[i].paxels[j].durationSamples == CellLength(p)
  {
    MultiPaxelSharedDuration(p.multiPaxels[i], j);
    if i > 0 {
      var back := p.multiPaxels[i - 1];
      assert ValidMultiPaxel(back);
      PartialSharedDuration(p, i - 1, |back.paxels| - 1);
      assert JoinsAcross(LastPaxel(back), FirstPaxel(p.multiPaxels[i]));
    }
  }
}
