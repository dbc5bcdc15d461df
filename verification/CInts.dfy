/** Division of ints as C does it. */
module CInts {

  /** C division truncates toward zero. */
  function TruncDiv(a: int, b: int): int
    requires b != 0
  {
    if a >= 0 then a / b else -((-a) / b)
  }

  /** The C remainder has the sign of the dividend. */
  function TruncMod(a: int, b: int): int
    requires b != 0
  {
    if a >= 0 then a % b else -((-a) % b)
  }

  /** The quotient and the remainder make up the dividend; the remainder is smaller than the divisor and
      never has the other sign than the dividend. */
  lemma {:induction false} DivisionLaw(a: int, b: int)
    requires b != 0
    ensures a == b * TruncDiv(a, b) + TruncMod(a, b)
    ensures -Abs(b) < TruncMod(a, b) < Abs(b)
    ensures (a >= 0 ==> TruncMod(a, b) >= 0) && (a <= 0 ==> TruncMod(a, b) <= 0)
  {
    var m := Abs(a);
    assert m == b * (m / b) + m % b;
    if a < 0 {
      assert b * -(m / b) == -(b * (m / b));
    }
  }

  function Abs(n: int): int {
    if n < 0 then -n else n
  }
}
