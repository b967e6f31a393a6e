/** FloatHelper: the tolerance comparison used for every float check in the engine and the game. */
module FloatHelper {
  /** Absolute tolerance of FloatEquals. */
  const Tolerance: real := 0.0001

  /** FloatEquals: the difference, negated when negative, is below the tolerance. */
  predicate FloatEquals(f1: real, f2: real)
  {
    var diff := f1 - f2;
    var magnitude := if diff < 0.0 then diff * -1.0 else diff;
    magnitude < Tolerance
  }

  /** FloatEquals holds exactly when |f1 - f2| < 0.0001. */
  lemma FloatEqualsIsWithinTolerance(f1: real, f2: real)
    ensures FloatEquals(f1, f2) <==> -Tolerance < f1 - f2 < Tolerance
  {
  }

  lemma FloatEqualsReflexive(f: real)
    ensures FloatEquals(f, f)
  {
  }

  lemma FloatEqualsSymmetric(f1: real, f2: real)
    ensures FloatEquals(f1, f2) <==> FloatEquals(f2, f1)
  {
  }

  /** On integer-valued arguments (grid cells) FloatEquals is exact equality. */
  lemma FloatEqualsOnIntegers(a: int, b: int)
    ensures FloatEquals(a as real, b as real) <==> a == b
  {
  }
}
