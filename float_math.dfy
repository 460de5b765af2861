/**
 * The part of System.Math the ship model computes with.
 *
 * Doubles are modelled as reals. Math.Sqrt, Math.Sin, Math.Cos and Math.Asin
 * are left uninterpreted: a `Maths` value carries one function for each, and
 * every property of the model holds for every choice of them. The only facts
 * assumed about them are gathered in `Sound`; each is true of the .NET double
 * implementations on the arguments the model passes them (see README).
 */
module FloatMath {

  /** Math.PI, the double closest to pi. */
  const PI: real := 3.141592653589793

  /** Math.Abs on doubles. */
  function Abs(x: real): (r: real)
    ensures r >= 0.0
    ensures r == x || r == -x
  {
    if x < 0.0 then -x else x
  }

  /** Math.Sqrt, Math.Sin, Math.Cos and Math.Asin, as uninterpreted functions. */
  datatype Maths = Maths(sqrt: real -> real, sin: real -> real, cos: real -> real, asin: real -> real)
  {
    /**
     * The facts about the library that the model relies on. The facts about
     * all arguments are only used where a lemma below asks for them (`At`).
     */
    ghost predicate Sound() {
      && sqrt(0.0) == 0.0
      && (forall x {:trigger At(x)} :: At(x) && 0.0 < x ==> sqrt(x) > 0.0)
      && (forall x {:trigger At(x)} :: At(x) ==> -PI / 2.0 <= asin(x) <= PI / 2.0)
      && asin(0.0) == 0.0
      && (forall x {:trigger At(x)} :: At(x) && 0.0 < x ==> asin(x) > 0.0)
      && (forall x {:trigger At(x)} :: At(x) && x < 0.0 ==> asin(x) < 0.0)
      && (forall x {:trigger At(x)} :: At(x) && 0.0 < x <= PI ==> sin(x) > 0.0)
      && sin(0.0) == 0.0
      && cos(0.0) == 1.0
    }
  }

  /** Names the argument at which a fact of `Maths.Sound` is wanted; it holds everywhere. */
  ghost predicate At(x: real) {
    true
  }

  /** Math.Sqrt is zero at zero and positive at positive arguments. */
  lemma SqrtSign(m: Library, x: real)
    ensures x == 0.0 ==> m.sqrt(x) == 0.0
    ensures 0.0 < x ==> m.sqrt(x) > 0.0
  {
    assert At(x);
  }

  /** Math.Asin lies in [-pi/2, pi/2] and has the sign of its argument. */
  lemma AsinRange(m: Library, x: real)
    ensures -PI / 2.0 <= m.asin(x) <= PI / 2.0
    ensures x == 0.0 ==> m.asin(x) == 0.0
    ensures 0.0 < x ==> m.asin(x) > 0.0
    ensures x < 0.0 ==> m.asin(x) < 0.0
  {
    assert At(x);
  }

  /** Math.Sin is positive on (0, pi]. */
  lemma SinPositive(m: Library, x: real)
    requires 0.0 < x <= PI
    ensures m.sin(x) > 0.0
  {
    assert At(x);
  }

  /**
   * Math.Round on doubles (MidpointRounding.ToEven) followed by the cast to long:
   * the nearest integer, ties going to the even neighbour.
   */
  function Round(x: real): (n: int)
    ensures x - 0.5 <= n as real <= x + 0.5
    ensures n as real - x == 0.5 || x - n as real == 0.5 ==> n % 2 == 0
  {
    var f := x.Floor;
    var d := x - f as real;
    if d < 0.5 then f
    else if d > 0.5 then f + 1
    else if f % 2 == 0 then f else f + 1
  }

  /**
   * A library satisfying `Sound`. The witness shows that such a library
   * exists, so the assumptions are consistent.
   */
  type Library = m: Maths | m.Sound()
    witness Maths(
      x => if 0.0 < x then x else 0.0,
      x => if 0.0 < x <= PI then 1.0 else 0.0,
      x => 1.0,
      x => if 0.0 < x then 1.0 else if x < 0.0 then -1.0 else 0.0)
}
