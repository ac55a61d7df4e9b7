/** Rendering of a partial (its multipaxel buffers one after another) and of
    a multi-partial bundle (every partial's buffer added into one
    zero-initialised buffer from index 0), and the label rule of the partial
    generators. */
module PartialRender {
  import opened Wrappers
  import opened AudioTypes
  import opened PaxelRender
  import opened CellArith

  /** A partial generator: a partial and its labels. There may be no labels,
      but none of them may be the empty string. */
  datatype PartialGenerator = PartialGenerator(partial: Partial, labels: set<string>)

  function NewPartialGenerator(partial: Partial, labels: set<string>): (r: Option<PartialGenerator>)
    requires ValidPartial(partial)
    ensures r.Some? <==> forall l :: l in labels ==> |l| > 0
    ensures r.Some? ==> r.value.partial == partial && r.value.labels == labels
  {
    if "" in labels then None else Some(PartialGenerator(partial, labels))
  }

  /** The buffers of the first `k` multipaxels, one after another. */
  function Concat(ms: seq<MultiPaxel>, osc: Oscillator, k: nat): (r: seq<real>)
    requires k <= |ms| && forall i :: 0 <= i < |ms| ==> ValidMultiPaxel(ms[i])
  {
    if k == 0 then [] else Concat(ms, osc, k - 1) + RenderMultiPaxel(ms[k - 1], osc)
  }

  /** `generatePartial`: every multipaxel's buffer, in order. */
  function RenderPartial(p: Partial, osc: Oscillator): seq<real>
    requires ValidPartial(p)
  {
    Concat(p.multiPaxels, osc, |p.multiPaxels|)
  }

  /** Every multipaxel buffer of a valid partial is one cell long. */
  lemma MultiPaxelBufferLength(p: Partial, osc: Oscillator, i: nat)
    requires ValidPartial(p) && i < |p.multiPaxels|
    ensures |RenderMultiPaxel(p.multiPaxels[i], osc)| == CellLength(p)
  {
    PartialSharedDuration(p, i, 0);
  }

  /** Cell starts grow with the cell number. */
  lemma {:induction false} CellStartGrows(a: nat, b: nat, g: nat)
    requires a <= b
    ensures CellStart(a, g) <= CellStart(b, g)
  {
    if a < b {
      CellStartGrows(a, b - 1, g);
    }
  }

  /** The first `k` buffers take `k` cells. */
  lemma {:induction false} ConcatLength(p: Partial, osc: Oscillator, k: nat)
    requires ValidPartial(p) && k <= |p.multiPaxels|
    ensures |Concat(p.multiPaxels, osc, k)| == CellStart(k, CellLength(p))
  {
    if k > 0 {
      ConcatLength(p, osc, k - 1);
      MultiPaxelBufferLength(p, osc, k - 1);
    }
  }

  /** Sample `j` of cell `i` is sample `j` of multipaxel `i`. */
  lemma {:induction false} ConcatCell(p: Partial, osc: Oscillator, k: nat, i: nat, j: nat)
    requires ValidPartial(p) && i < k <= |p.multiPaxels| && j < CellLength(p)
    ensures |RenderMultiPaxel(p.multiPaxels[i], osc)| == CellLength(p)
    ensures CellStart(i, CellLength(p)) + j < |Concat(p.multiPaxels, osc, k)|
    ensures Concat(p.multiPaxels, osc, k)[CellStart(i, CellLength(p)) + j]
              == RenderMultiPaxel(p.multiPaxels[i], osc)[j]
  {
    var g := CellLength(p);
    var ms := p.multiPaxels;
    var pre, last := Concat(ms, osc, k - 1), RenderMultiPaxel(ms[k - 1], osc);
    assert Concat(ms, osc, k) == pre + last;
    ConcatLength(p, osc, k - 1);
    MultiPaxelBufferLength(p, osc, k - 1);
    MultiPaxelBufferLength(p, osc, i);
    var n := CellStart(i, g) + j;
    if i < k - 1 {
      ConcatCell(p, osc, k - 1, i, j);
      assert n < |pre|;
      assert (pre + last)[n] == pre[n];
    } else {
      assert n == |pre| + j;
      assert (pre + last)[n] == last[j];
    }
  }

  /** A partial renders into one cell per multipaxel: sample `j` of cell
      `i` is sample `j` of multipaxel `i` (`CellStart(i, g)` is `i * g`, by
      `CellStartIsProduct`). */
  lemma PartialCell(p: Partial, osc: Oscillator, i: nat, j: nat)
    requires ValidPartial(p) && i < |p.multiPaxels| && j < CellLength(p)
    ensures |RenderMultiPaxel(p.multiPaxels[i], osc)| == CellLength(p)
    ensures CellStart(i, CellLength(p)) + j < |RenderPartial(p, osc)|
    ensures RenderPartial(p, osc)[CellStart(i, CellLength(p)) + j] == RenderMultiPaxel(p.multiPaxels[i], osc)[j]
  {
    ConcatCell(p, osc, |p.multiPaxels|, i, j);
  }

  /** A partial is as many cells long as it has multipaxels. */
  lemma PartialLength(p: Partial, osc: Oscillator)
    requires ValidPartial(p)
    ensures |RenderPartial(p, osc)| == |p.multiPaxels| * CellLength(p)
  {
    ConcatLength(p, osc, |p.multiPaxels|);
    CellStartIsProduct(|p.multiPaxels|, CellLength(p));
  }

  /** The loop of `generatePartial`, with the check it makes after each
      buffer: once the last buffer is in, the output ends on that buffer's
      last sample. */
  method GeneratePartial(p: Partial, osc: Oscillator) returns (result: seq<real>)
    requires ValidPartial(p)
    ensures result == RenderPartial(p, osc)
    ensures |result| > 0
    ensures var last := RenderMultiPaxel(p.multiPaxels[|p.multiPaxels| - 1], osc);
            result[|result| - 1] == last[|last| - 1]
  {
    var ms := p.multiPaxels;
    result := [];
    var i := 0;
    while i < |ms|
      invariant 0 <= i <= |ms|
      invariant result == Concat(ms, osc, i)
    {
      var resultI := RenderMultiPaxel(ms[i], osc);
      result := result + resultI;
      i := i + 1;
    }
    EndsOnLastBuffer(p, osc);
  }

  /** The concatenation is non-empty and its last sample is the last
      sample of the last multipaxel's buffer. */
  lemma EndsOnLastBuffer(p: Partial, osc: Oscillator)
    requires ValidPartial(p)
    ensures |RenderPartial(p, osc)| > 0
    ensures var last := RenderMultiPaxel(p.multiPaxels[|p.multiPaxels| - 1], osc);
            var r := RenderPartial(p, osc);
            |last| > 0 && r[|r| - 1] == last[|last| - 1]
  {
    var ms := p.multiPaxels;
    var n := |ms|;
    var pre, last := Concat(ms, osc, n - 1), RenderMultiPaxel(ms[n - 1], osc);
    MultiPaxelBufferLength(p, osc, n - 1);
    assert RenderPartial(p, osc) == pre + last;
    assert (pre + last)[|pre| + |last| - 1] == last[|last| - 1];
  }

  /** The longest partial, counted in multipaxels. */
  function MaxMultiPaxels(ps: seq<Partial>): (r: nat)
    requires |ps| > 0
    ensures forall i :: 0 <= i < |ps| ==> |ps[i].multiPaxels| <= r
    ensures exists i :: 0 <= i < |ps| && |ps[i].multiPaxels| == r
  {
    if |ps| == 1 then |ps[0].multiPaxels|
    else
      var m := MaxMultiPaxels(ps[..|ps| - 1]);
      assert forall i :: 0 <= i < |ps| - 1 ==> ps[..|ps| - 1][i] == ps[i];
      if |ps[|ps| - 1].multiPaxels| > m then |ps[|ps| - 1].multiPaxels| else m
  }

  /** `b` added into `acc` from index 0; indices past the end of `b` are
      left as they are. */
  function AddPrefix(acc: seq<real>, b: seq<real>): (r: seq<real>)
    requires |b| <= |acc|
    ensures |r| == |acc|
    ensures forall i :: 0 <= i < |b| ==> r[i] == b[i] + acc[i]
    ensures forall i :: |b| <= i < |acc| ==> r[i] == acc[i]
  {
    seq(|acc|, i requires 0 <= i < |acc| => if i < |b| then b[i] + acc[i] else acc[i])
  }

  /** The first `k` buffers added into `acc`. */
  function MixFrom(bufs: seq<seq<real>>, acc: seq<real>, k: nat): (r: seq<real>)
    requires k <= |bufs| && forall j :: 0 <= j < |bufs| ==> |bufs[j]| <= |acc|
    ensures |r| == |acc|
  {
    if k == 0 then acc else AddPrefix(MixFrom(bufs, acc, k - 1), bufs[k - 1])
  }

  /** Sample `i` of the mix, defined sample by sample: the sum of sample
      `i` of every buffer long enough to have one. */
  function ColumnSum(bufs: seq<seq<real>>, i: nat, k: nat): real
    requires k <= |bufs|
  {
    if k == 0 then 0.0 else ColumnSum(bufs, i, k - 1) + (if i < |bufs[k - 1]| then bufs[k - 1][i] else 0.0)
  }

  lemma {:induction false} MixFromColumns(bufs: seq<seq<real>>, n: nat, k: nat, i: nat)
    requires k <= |bufs| && i < n && forall j :: 0 <= j < |bufs| ==> |bufs[j]| <= n
    ensures MixFrom(bufs, seq(n, _ => 0.0), k)[i] == ColumnSum(bufs, i, k)
  {
    if k > 0 {
      MixFromColumns(bufs, n, k - 1, i);
    }
  }

  /** What the bundle renderer can reject: a partial whose cells differ in
      length from the first partial's, or an empty label, which the partial
      generator it builds for each partial refuses. */
  datatype MixError = CellLengthMismatch | EmptyLabel

  /** Every partial shares the first partial's cell length. */
  predicate SameCells(ps: seq<Partial>)
    requires |ps| > 0 && forall i :: 0 <= i < |ps| ==> ValidPartial(ps[i])
  {
    forall i :: 0 <= i < |ps| ==> CellLength(ps[i]) == CellLength(ps[0])
  }

  /** Each partial's buffer. */
  function Buffers(ps: seq<Partial>, osc: Oscillator): (r: seq<seq<real>>)
    requires forall i :: 0 <= i < |ps| ==> ValidPartial(ps[i])
    ensures |r| == |ps| && forall i :: 0 <= i < |ps| ==> r[i] == RenderPartial(ps[i], osc)
  {
    seq(|ps|, i requires 0 <= i < |ps| => RenderPartial(ps[i], osc))
  }

  lemma MulMonotone(a: nat, b: nat, g: nat)
    requires a <= b
    ensures a * g <= b * g
  {
  }

  /** With equal cells, every partial's buffer fits in the longest one, and
      that is at least one cell long. */
  lemma BuffersFit(mp: MultiPartial, osc: Oscillator)
    requires ValidMultiPartial(mp) && SameCells(mp.partials)
    ensures var total := MaxMultiPaxels(mp.partials) * CellLength(mp.partials[0]);
            && total >= CellLength(mp.partials[0])
            && forall j :: 0 <= j < |mp.partials| ==> |Buffers(mp.partials, osc)[j]| <= total
  {
    var ps := mp.partials;
    var g := CellLength(ps[0]);
    forall j | 0 <= j < |ps| ensures |Buffers(ps, osc)[j]| <= MaxMultiPaxels(ps) * g {
      PartialLength(ps[j], osc);
      MulMonotone(|ps[j].multiPaxels|, MaxMultiPaxels(ps), g);
    }
    MulMonotone(1, MaxMultiPaxels(ps), g);
  }

  /** `renderAudio` of a multi-partial bundle: a zero buffer as long as the
      longest partial, with every partial's samples added from index 0. The
      cell lengths are checked while the longest partial is sought; then a
      partial generator is built for each partial with the bundle's labels,
      and the first one already refuses an empty label. */
  function Mix(mp: MultiPartial, labels: set<string>, osc: Oscillator): (r: Result<seq<real>, MixError>)
    requires ValidMultiPartial(mp)
    ensures r == Failure(CellLengthMismatch) <==> !SameCells(mp.partials)
    ensures r == Failure(EmptyLabel) <==>
              SameCells(mp.partials) && NewPartialGenerator(mp.partials[0], labels).None?
    ensures r.Success? <==> SameCells(mp.partials) && forall l :: l in labels ==> |l| > 0
    ensures r.Success? ==> |r.value| == MaxMultiPaxels(mp.partials) * CellLength(mp.partials[0]) > 0
  {
    var ps := mp.partials;
    if !SameCells(ps) then Failure(CellLengthMismatch)
    else if "" in labels then Failure(EmptyLabel)
    else
      BuffersFit(mp, osc);
      var total := MaxMultiPaxels(ps) * CellLength(ps[0]);
      Success(MixFrom(Buffers(ps, osc), seq(total, _ => 0.0), |ps|))
  }

  /** Each sample of the mix is the sum, over the partials long enough to
      reach it, of their samples there; a shorter partial adds nothing past
      its end. */
  lemma MixSamples(mp: MultiPartial, labels: set<string>, osc: Oscillator, i: nat)
    requires ValidMultiPartial(mp)
    ensures var r := Mix(mp, labels, osc);
            r.Success? && i < |r.value| ==> r.value[i] == ColumnSum(Buffers(mp.partials, osc), i, |mp.partials|)
  {
    if SameCells(mp.partials) && "" !in labels {
      BuffersFit(mp, osc);
      var total := MaxMultiPaxels(mp.partials) * CellLength(mp.partials[0]);
      if i < total {
        MixFromColumns(Buffers(mp.partials, osc), total, |mp.partials|, i);
      }
    }
  }

  /** The mix of a single partial is that partial's buffer, unless a label
      is empty. */
  lemma MixOfOne(p: Partial, labels: set<string>, osc: Oscillator)
    requires ValidPartial(p)
    ensures "" in labels ==> Mix(MultiPartial([p]), labels, osc) == Failure(EmptyLabel)
    ensures "" !in labels ==> Mix(MultiPartial([p]), labels, osc) == Success(RenderPartial(p, osc))
  {
    var mp := MultiPartial([p]);
    assert mp.partials[0] == p;
    assert SameCells(mp.partials);
    if "" in labels {
      return;
    }
    var r := Mix(mp, labels, osc);
    PartialLength(p, osc);
    assert MaxMultiPaxels(mp.partials) == |p.multiPaxels|;
    assert SameCells(mp.partials);
    var b := RenderPartial(p, osc);
    assert |r.value| == |b|;
    forall i | 0 <= i < |b| ensures r.value[i] == b[i] {
      MixSamples(mp, labels, osc, i);
      assert Buffers(mp.partials, osc)[0] == b;
      assert ColumnSum(Buffers(mp.partials, osc), i, 1) == 0.0 + b[i];
    }
    assert r.value == b;
  }
}
