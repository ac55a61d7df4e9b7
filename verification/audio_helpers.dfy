/** Phase-difference wrapping (`coherenceCompensation`): the smallest shift
    that brings a source phase onto a target phase. The source reduces both
    phases with `std::fmod`, which keeps the sign of a negative phase; the
    corrected form reduces them with the Euclidean remainder instead. */
module AudioHelpers {
  import opened Wrappers
  import opened AudioTypes
  import opened EnvelopeTypes

  /** `std::fmod(x, TWO_PI)`: the remainder of the division truncated toward
      zero, with the sign of `x`. */
  function FModTwoPi(x: real): (r: real)
    ensures x >= 0.0 ==> 0.0 <= r < TWO_PI
    ensures x < 0.0 ==> -TWO_PI < r <= 0.0
  {
    var q := x / TWO_PI;
    assert q * TWO_PI == x;
    x - Trunc(q) as real * TWO_PI
  }

  /** The Euclidean remainder by 2*pi: always in [0, 2*pi). */
  function Reduce(x: real): (r: real)
    ensures 0.0 <= r < TWO_PI
  {
    var q := x / TWO_PI;
    assert q * TWO_PI == x;
    x - q.Floor as real * TWO_PI
  }

  /** `k` whole turns. */
  function Turns(k: int): real {
    k as real * TWO_PI
  }

  lemma TurnsAdd(a: int, b: int)
    ensures Turns(a) + Turns(b) == Turns(a + b)
  {
  }

  /** Every real is its remainder plus whole turns. */
  lemma ReduceSplit(x: real)
    ensures x == Reduce(x) + Turns((x / TWO_PI).Floor)
  {
  }

  /** Two reals have the same Euclidean remainder exactly when they differ by
      a whole number of turns. */
  lemma ReduceTurns(x: real, y: real)
    ensures Reduce(x) == Reduce(y) <==> exists k: int :: x - y == Turns(k)
  {
    var fx := (x / TWO_PI).Floor;
    var fy := (y / TWO_PI).Floor;
    ReduceSplit(x);
    ReduceSplit(y);
    if Reduce(x) == Reduce(y) {
      assert x - y == Turns(fx - fy);
    }
    if exists k: int :: x - y == Turns(k) {
      var k: int :| x - y == Turns(k);
      assert x / TWO_PI == y / TWO_PI + k as real;
      assert fx == fy + k;
    }
  }

  /** Wraps a difference of two reduced phases into [-pi, pi]. */
  function Wrap(d: real): real {
    if d > PI then d - TWO_PI else if d < -PI then d + TWO_PI else d
  }

  /** The helper exactly as written: equal phases need no shift; otherwise
      both are reduced with `fmod` and the difference wrapped once. `None`
      is the range assert at the end failing. */
  function CoherenceCompensationAsWritten(source: real, target: real): (r: Option<real>)
    ensures source == target ==> r == Some(0.0)
    ensures r.Some? ==> -PI <= r.value <= PI
    ensures source >= 0.0 && target >= 0.0 ==> r.Some?
  {
    if source == target then Some(0.0)
    else
      var d := Wrap(FModTwoPi(target) - FModTwoPi(source));
      if -PI <= d <= PI then Some(d) else None
  }

  /** A negative source phase breaks the range assert: `fmod` leaves -5.5
      as it is, the difference to 6.0 is 11.5, and one wrap leaves about
      5.22, more than pi. */
  lemma NegativePhaseBreaksAssert()
    ensures CoherenceCompensationAsWritten(-5.5, 6.0).None?
  {
    assert Trunc(-5.5 / TWO_PI) == 0;
    assert Trunc(6.0 / TWO_PI) == 0;
  }

  /** The corrected helper: the same shape, with Euclidean reduction. */
  function CoherenceCompensation(source: real, target: real): (r: real)
    ensures source == target ==> r == 0.0
    ensures -PI <= r <= PI
  {
    if source == target then 0.0 else Wrap(Reduce(target) - Reduce(source))
  }

  /** For non-negative phases the corrected helper computes exactly what the
      source does. */
  lemma CompensationAgreesOnNonNegative(source: real, target: real)
    requires source >= 0.0 && target >= 0.0
    ensures CoherenceCompensationAsWritten(source, target) == Some(CoherenceCompensation(source, target))
  {
    assert FModTwoPi(source) == Reduce(source);
    assert FModTwoPi(target) == Reduce(target);
  }

  /** The shift makes the phases coherent: the shifted source lands on the
      target, up to whole turns. */
  lemma CompensationAligns(source: real, target: real)
    ensures Reduce(source + CoherenceCompensation(source, target)) == Reduce(target)
  {
    var r := CoherenceCompensation(source, target);
    var fs := (source / TWO_PI).Floor;
    var ft := (target / TWO_PI).Floor;
    ReduceSplit(source);
    ReduceSplit(target);
    var j: int := 0;
    if source != target {
      var d := Reduce(target) - Reduce(source);
      j := if d > PI then -1 else if d < -PI then 1 else 0;
    }
    assert r == Reduce(target) - Reduce(source) + Turns(j);
    TurnsAdd(fs, j);
    TurnsAdd(fs + j - ft, ft);
    assert (source + r) - target == Turns(fs + j - ft);
    ReduceTurns(source + r, target);
  }

  /** The shift is the smallest one that makes the phases coherent: no shift
      of smaller magnitude lands the source on the target. */
  lemma CompensationIsSmallest(source: real, target: real, m: real)
    requires Reduce(source + m) == Reduce(target)
    ensures var r := CoherenceCompensation(source, target);
            -m <= r <= m || m <= r <= -m
  {
    var r := CoherenceCompensation(source, target);
    CompensationAligns(source, target);
    ReduceTurns(source + m, source + r);
    var k: int :| (source + m) - (source + r) == Turns(k);
    if k >= 1 {
      assert m >= r + TWO_PI;
    } else if k <= -1 {
      assert m <= r - TWO_PI;
    }
  }
}
