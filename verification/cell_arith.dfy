/** Cell arithmetic of pass 3: cell starts as repeated additions, and the
    Euclidean remainder of a position inside a cell. */
module CellArith {
  /** The start of shifted cell `c`: `c` whole cells. */
  function CellStart(c: nat, g: nat): nat {
    if c == 0 then 0 else CellStart(c - 1, g) + g
  }

  lemma {:induction false} CellStartIsProduct(c: nat, g: nat)
    ensures CellStart(c, g) == c * g
  {
    if c > 0 {
      CellStartIsProduct(c - 1, g);
      Distribute(c - 1, g);
    }
  }

  lemma Distribute(a: nat, g: nat)
    ensures (a + 1) * g == a * g + g
  {
  }

  lemma MulAtLeast(d: nat, g: nat)
    requires d >= 1
    ensures d * g >= g
  {
  }

  lemma RemainderOfProduct(x: nat, c: nat, g: nat)
    requires g > 0 && c * g <= x < c * g + g
    ensures x % g == x - c * g
  {
    var q := x / g;
    assert x == q * g + x % g;
    assert (q - c) * g == q * g - c * g;
    if q >= c + 1 {
      MulAtLeast(q - c, g);
    }
    if c >= q + 1 {
      MulAtLeast(c - q, g);
    }
  }

  /** The Euclidean remainder of a natural number by `g`, by repeated
      subtraction of whole cells. */
  function Remainder(x: nat, g: nat): (r: nat)
    requires g > 0
    ensures r < g
    decreases x
  {
    if x < g then x else Remainder(x - g, g)
  }

  /** Position in a cell: inside cell `c` the remainder is the distance from
      the cell's start. */
  lemma {:induction false} RemainderInCell(x: nat, c: nat, g: nat)
    requires g > 0 && CellStart(c, g) <= x < CellStart(c, g) + g
    ensures Remainder(x, g) == x - CellStart(c, g)
    decreases c
  {
    if c > 0 {
      RemainderInCell(x - g, c - 1, g);
    }
  }

  /** The remainder is the `%` of the source. */
  lemma RemainderIsMod(x: nat, g: nat)
    requires g > 0
    ensures Remainder(x, g) == x % g
  {
    var c := x / g;
    CellStartIsProduct(c, g);
    RemainderInCell(x, c, g);
    RemainderOfProduct(x, c, g);
  }
}
