/** Integer stand-ins for the floating-point `ceil` of a quotient and for powers. */
module IntMath {

  /** The ceiling of a / b for a positive divisor, computed on integers. */
  function CeilDiv(a: int, b: int): (q: int)
    requires b > 0
    ensures b * (q - 1) < a <= b * q
  {
    var s := a + b - 1;
    assert s == b * (s / b) + s % b;
    s / b
  }

  /** CeilDiv(a, b) is the least x with b * x >= a. */
  lemma CeilDivIsLeast(a: int, b: int, x: int)
    requires b > 0
    ensures b * x >= a <==> x >= CeilDiv(a, b)
  {
    var q := CeilDiv(a, b);
    if x >= q {
      MulNonNegative(b, x - q);
      Distribute(b, q, x - q);
    } else {
      MulNonNegative(b, q - 1 - x);
      Distribute(b, x, q - 1 - x);
    }
  }

  lemma CeilDivMonotone(a: int, a': int, b: int)
    requires b > 0 && a <= a'
    ensures CeilDiv(a, b) <= CeilDiv(a', b)
  {
    CeilDivIsLeast(a, b, CeilDiv(a', b));
  }

  /** Dividing at least two entries among nodes of capacity at least two needs
      at least one node and fewer nodes than entries. */
  lemma CeilDivShrinks(a: int, b: int)
    requires a >= 2 && b >= 2
    ensures 1 <= CeilDiv(a, b) < a
  {
    MulNonNegative(b - 2, a - 1);
    Distribute(a - 1, 2, b - 2);
    CeilDivIsLeast(a, b, a - 1);
    CeilDivIsLeast(a, b, 0);
  }

  /** A single entry fits in one node; no entry needs no node. */
  lemma CeilDivSmall(b: int)
    requires b > 0
    ensures CeilDiv(1, b) == 1 && CeilDiv(0, b) == 0
  {
    CeilDivIsLeast(1, b, 1);
    CeilDivIsLeast(1, b, 0);
    CeilDivIsLeast(0, b, 0);
    CeilDivIsLeast(0, b, -1);
  }

  lemma MulNonNegative(x: int, y: int)
    requires x >= 0 && y >= 0
    ensures x * y >= 0
  {
  }

  lemma Distribute(x: int, y: int, z: int)
    ensures x * (y + z) == x * y + x * z
  {
  }

  lemma NonZeroProduct(x: int, y: int)
    ensures x * y != 0 <==> x != 0 && y != 0
  {
  }

  function Pow(b: int, e: nat): (r: int)
  {
    if e == 0 then 1 else b * Pow(b, e - 1)
  }
}
