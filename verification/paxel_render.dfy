/** Rendering of one paxel and of one multipaxel. A paxel renders into a
    buffer of one whole cell: silence before and after its window, and in
    the window the linearly interpolated amplitude times the oscillator.
    A multipaxel is the element-wise sum of its paxels' buffers. The phase
    accumulation and `sin` are the oscillator, a parameter. */
module PaxelRender {
  import opened Wrappers
  import opened AudioTypes

  /** `sin` of the accumulated phase at window index `k` of a paxel. */
  type Oscillator = (Paxel, nat) -> real

  ghost predicate OscillatorInRange(osc: Oscillator) {
    forall p: Paxel, k: nat :: -1.0 <= osc(p, k) <= 1.0
  }

  /** The number of audible samples, fencepost included. */
  function WindowLength(p: Paxel): nat
    requires p.startSample <= p.endSample
  {
    1 + p.endSample - p.startSample
  }

  /** The amplitude step per sample. The amplitude of a sample is the mean
      over the sample's time, so the ramp is divided into one more step
      than there are samples. */
  function AmplitudeIncrement(p: Paxel): real
    requires p.startSample <= p.endSample
  {
    (p.endAmplitude - p.startAmplitude) / (WindowLength(p) as real + 1.0)
  }

  /** The amplitude at window index `k`: half a step, then `k` whole steps,
      from the start amplitude. */
  function Amplitude(p: Paxel, k: nat): real
    requires p.startSample <= p.endSample
  {
    p.startAmplitude + (k as real + 0.5) * AmplitudeIncrement(p)
  }

  function Sample(p: Paxel, osc: Oscillator, k: nat): real
    requires p.startSample <= p.endSample
  {
    Amplitude(p, k) * osc(p, k)
  }

  predicate Covers(p: Paxel, i: nat) {
    p.startSample <= i <= p.endSample
  }

  /** The buffer of a paxel: one cell long, silent outside the window. */
  function RenderPaxel(p: Paxel, osc: Oscillator): (r: seq<real>)
    requires ValidPaxel(p)
    ensures |r| == p.durationSamples > 0
    ensures forall i :: 0 <= i < |r| && !Covers(p, i) ==> r[i] == 0.0
  {
    seq(p.durationSamples, i requires 0 <= i < p.durationSamples =>
          if Covers(p, i) then Sample(p, osc, i - p.startSample) else 0.0)
  }

  /** `generatePaxel` as the loop it is: a zero buffer, then the window
      written sample by sample while the amplitude grows by one step per
      sample. It computes the closed form of `RenderPaxel`. */
  method GeneratePaxel(p: Paxel, osc: Oscillator) returns (samples: seq<real>)
    requires ValidPaxel(p)
    ensures samples == RenderPaxel(p, osc)
    ensures forall i :: p.startSample <= i <= p.endSample ==>
              samples[i] == Amplitude(p, i - p.startSample) * osc(p, i - p.startSample)
  {
    var inc := AmplitudeIncrement(p);
    var amplitude := p.startAmplitude + inc / 2.0;
    samples := seq(p.durationSamples, _ => 0.0);
    var i := p.startSample;
    while i <= p.endSample
      invariant p.startSample <= i <= p.endSample + 1
      invariant amplitude == Amplitude(p, i - p.startSample)
      invariant RenderedUpTo(samples, p, osc, i)
    {
      var k := i - p.startSample;
      RenderStep(samples, p, osc, i);
      samples := samples[i := amplitude * osc(p, k)];
      AmplitudeStep(p, k);
      amplitude := amplitude + inc;
      i := i + 1;
    }
    RenderedAll(samples, p, osc);
  }

  /** The buffer holds the window's samples below index `i` and silence
      everywhere else. */
  predicate RenderedUpTo(samples: seq<real>, p: Paxel, osc: Oscillator, i: nat)
    requires p.startSample <= p.endSample
  {
    && |samples| == p.durationSamples
    && forall j :: 0 <= j < |samples| ==>
         samples[j] == if p.startSample <= j < i then Sample(p, osc, j - p.startSample) else 0.0
  }

  lemma AmplitudeStep(p: Paxel, k: nat)
    requires p.startSample <= p.endSample
    ensures Amplitude(p, k) + AmplitudeIncrement(p) == Amplitude(p, k + 1)
  {
    var inc := AmplitudeIncrement(p);
    assert (k as real + 1.5) * inc == (k as real + 0.5) * inc + inc;
  }

  lemma RenderStep(samples: seq<real>, p: Paxel, osc: Oscillator, i: nat)
    requires ValidPaxel(p) && p.startSample <= i <= p.endSample
    requires RenderedUpTo(samples, p, osc, i)
    ensures RenderedUpTo(samples[i := Sample(p, osc, i - p.startSample)], p, osc, i + 1)
  {
  }

  lemma RenderedAll(samples: seq<real>, p: Paxel, osc: Oscillator)
    requires ValidPaxel(p) && RenderedUpTo(samples, p, osc, p.endSample + 1)
    ensures samples == RenderPaxel(p, osc)
    ensures forall i :: p.startSample <= i <= p.endSample ==>
              samples[i] == Amplitude(p, i - p.startSample) * osc(p, i - p.startSample)
  {
    var r := RenderPaxel(p, osc);
    assert |samples| == |r|;
    forall j | 0 <= j < |r|
      ensures samples[j] == r[j]
    {
    }
  }

  /** The window holds exactly `1 + endSample - startSample` indices, all
      inside the buffer. */
  lemma WindowInBuffer(p: Paxel)
    requires ValidPaxel(p)
    ensures p.startSample + WindowLength(p) <= p.durationSamples
    ensures forall i: nat :: Covers(p, i) <==> p.startSample <= i < p.startSample + WindowLength(p)
  {
  }

  /** The interpolated amplitude never leaves the range between the start
      and end amplitudes. */
  lemma AmplitudeBetween(p: Paxel, k: nat)
    requires p.startSample <= p.endSample && k < WindowLength(p)
    ensures var a := Amplitude(p, k);
            && (p.startAmplitude <= p.endAmplitude ==> p.startAmplitude <= a <= p.endAmplitude)
            && (p.endAmplitude <= p.startAmplitude ==> p.endAmplitude <= a <= p.startAmplitude)
  {
    var n := WindowLength(p) as real + 1.0;
    var d := p.endAmplitude - p.startAmplitude;
    var a := k as real + 0.5;
    assert 0.0 < a < n;
    ScaledStepBetween(a, n, d);
  }

  /** `a` steps of `d / n`, for `0 < a < n`, lie between 0 and `d`. */
  lemma ScaledStepBetween(a: real, n: real, d: real)
    requires 0.0 < a < n
    ensures d >= 0.0 ==> 0.0 <= a * (d / n) <= d
    ensures d < 0.0 ==> d <= a * (d / n) <= 0.0
  {
    var t := a / n;
    assert n / n == 1.0;
    assert (n - a) / n == n / n - a / n;
    assert 0.0 < (n - a) / n;
    assert 0.0 < t < 1.0;
    assert a * (d / n) == t * d;
    if d >= 0.0 {
      assert 0.0 <= t * d <= d;
    } else {
      assert d <= t * d <= 0.0;
    }
  }

  lemma ProductBounded(a: real, s: real)
    requires -1.0 <= a <= 1.0 && -1.0 <= s <= 1.0
    ensures -1.0 <= a * s <= 1.0
  {
    if a >= 0.0 {
      assert a * s <= a * 1.0 && a * s >= a * -1.0;
    } else {
      assert a * s >= a * 1.0 && a * s <= a * -1.0;
    }
  }

  /** Every rendered sample of a valid paxel lies in [-1, 1], as the
      renderer asserts sample by sample. */
  lemma SamplesBounded(p: Paxel, osc: Oscillator)
    requires ValidPaxel(p) && OscillatorInRange(osc)
    ensures var r := RenderPaxel(p, osc);
            forall i :: 0 <= i < |r| ==> -1.0 <= r[i] <= 1.0
  {
    var r := RenderPaxel(p, osc);
    forall i | 0 <= i < |r| ensures -1.0 <= r[i] <= 1.0 {
      if Covers(p, i) {
        var k := i - p.startSample;
        AmplitudeBetween(p, k);
        ProductBounded(Amplitude(p, k), osc(p, k));
      }
    }
  }

  /** The renderer as written against the paxel invariant as written: the
      window loop writes `samples[endSample]`, which lies past the buffer
      when the window ends on `durationSamples`. `None` is that write. */
  function RenderPaxelAsWritten(p: Paxel, osc: Oscillator): (r: Option<seq<real>>)
    requires ValidPaxelAsWritten(p)
    ensures r.Some? <==> p.endSample < p.durationSamples
  {
    if p.endSample >= p.durationSamples then None else Some(RenderPaxel(p, osc))
  }

  /** A paxel the constructor's check accepts, whose last window sample is
      written one past its one-sample buffer. */
  lemma WindowOverrunsBuffer(osc: Oscillator)
    ensures var p := Paxel(440.0, 440.0, 0.5, 0.5, 0.0, 0.0, 1, 0, 1);
            ValidPaxelAsWritten(p) && RenderPaxelAsWritten(p, osc).None?
  {
  }

  /** With the window bound strict the renderer never writes out of range:
      the corrected invariant is the one as written plus exactly that
      bound, and under it the rendering succeeds. */
  lemma StrictWindowFits(p: Paxel, osc: Oscillator)
    ensures ValidPaxel(p) <==> ValidPaxelAsWritten(p) && p.endSample < p.durationSamples
    ensures ValidPaxel(p) ==> RenderPaxelAsWritten(p, osc) == Some(RenderPaxel(p, osc))
  {
  }

  function AddSamples(a: seq<real>, b: seq<real>): (r: seq<real>)
    requires |a| == |b|
    ensures |r| == |a| && forall i :: 0 <= i < |a| ==> r[i] == a[i] + b[i]
  {
    seq(|a|, i requires 0 <= i < |a| => a[i] + b[i])
  }

  /** Paxels that can share one buffer: valid, one cell length, windows in
      order and apart. */
  predicate Stackable(ps: seq<Paxel>) {
    && |ps| > 0
    && (forall j :: 0 <= j < |ps| ==> ValidPaxel(ps[j]) && ps[j].durationSamples == ps[0].durationSamples)
    && (forall a, b :: 0 <= a < b < |ps| ==> ps[a].endSample < ps[b].startSample)
  }

  lemma MultiPaxelStackable(m: MultiPaxel)
    requires ValidMultiPaxel(m)
    ensures Stackable(m.paxels)
  {
    forall j | 0 <= j < |m.paxels| ensures m.paxels[j].durationSamples == m.paxels[0].durationSamples {
      MultiPaxelSharedDuration(m, j);
    }
    forall a, b | 0 <= a < b < |m.paxels| ensures m.paxels[a].endSample < m.paxels[b].startSample {
      MultiPaxelWindowsOrdered(m, a, b);
    }
  }

  /** The buffers of the first `n` paxels, added up. */
  function Overlay(ps: seq<Paxel>, osc: Oscillator, n: nat): (r: seq<real>)
    requires Stackable(ps) && 1 <= n <= |ps|
    ensures |r| == ps[0].durationSamples
  {
    if n == 1 then RenderPaxel(ps[0], osc)
    else AddSamples(Overlay(ps, osc, n - 1), RenderPaxel(ps[n - 1], osc))
  }

  /** `generatePaxel` of a multipaxel: the first paxel's buffer with every
      later paxel's buffer added element-wise. */
  function RenderMultiPaxel(m: MultiPaxel, osc: Oscillator): (r: seq<real>)
    requires ValidMultiPaxel(m)
    ensures |r| == m.paxels[0].durationSamples > 0
  {
    MultiPaxelStackable(m);
    Overlay(m.paxels, osc, |m.paxels|)
  }

  /** An index no paxel among the first `n` covers stays silent. */
  lemma {:induction false} OverlaySilent(ps: seq<Paxel>, osc: Oscillator, n: nat, i: nat)
    requires Stackable(ps) && 1 <= n <= |ps| && i < ps[0].durationSamples
    requires forall j :: 0 <= j < n ==> !Covers(ps[j], i)
    ensures Overlay(ps, osc, n)[i] == 0.0
  {
    if n > 1 {
      OverlaySilent(ps, osc, n - 1, i);
    }
  }

  /** An index covered by paxel `j` among the first `n` carries that
      paxel's sample and nothing from the others. */
  lemma {:induction false} OverlayCovered(ps: seq<Paxel>, osc: Oscillator, n: nat, i: nat, j: nat)
    requires Stackable(ps) && j < n <= |ps| && Covers(ps[j], i)
    ensures i < ps[0].durationSamples
    ensures Overlay(ps, osc, n)[i] == Sample(ps[j], osc, i - ps[j].startSample)
  {
    if n - 1 == j {
      if n > 1 {
        forall k | 0 <= k < n - 1 ensures !Covers(ps[k], i) {
          assert ps[k].endSample < ps[j].startSample;
        }
        OverlaySilent(ps, osc, n - 1, i);
      }
    } else {
      OverlayCovered(ps, osc, n - 1, i, j);
      assert ps[j].endSample < ps[n - 1].startSample;
    }
  }

  /** Each sample of a multipaxel is the sample of the one paxel whose
      window covers it, or silence where none does. */
  lemma MultiPaxelCovering(m: MultiPaxel, osc: Oscillator, i: nat)
    requires ValidMultiPaxel(m) && i < m.paxels[0].durationSamples
    ensures var r := RenderMultiPaxel(m, osc);
            && (forall j :: 0 <= j < |m.paxels| && Covers(m.paxels[j], i) ==>
                  r[i] == Sample(m.paxels[j], osc, i - m.paxels[j].startSample))
            && ((forall j :: 0 <= j < |m.paxels| ==> !Covers(m.paxels[j], i)) ==> r[i] == 0.0)
  {
    MultiPaxelStackable(m);
    forall j | 0 <= j < |m.paxels| && Covers(m.paxels[j], i)
      ensures RenderMultiPaxel(m, osc)[i] == Sample(m.paxels[j], osc, i - m.paxels[j].startSample)
    {
      OverlayCovered(m.paxels, osc, |m.paxels|, i, j);
    }
    if forall j :: 0 <= j < |m.paxels| ==> !Covers(m.paxels[j], i) {
      OverlaySilent(m.paxels, osc, |m.paxels|, i);
    }
  }
}
