/**
  Grid distances between two integer points (game/distance.py).
  Each distance is one arithmetic expression over absolute differences.
 */
module Distance {

  /** A point of the plane; the program indexes it as `vec[0]` and `vec[1]`. */
  type Vec = (int, int)

  function Abs(n: int): nat
  {
    if n < 0 then -n else n
  }

  /** The four orthogonal neighbours of `a`, stated without any distance. */
  predicate OrthogonalNeighbours(a: Vec, b: Vec)
  {
    b == (a.0 + 1, a.1) || b == (a.0 - 1, a.1) || b == (a.0, a.1 + 1) || b == (a.0, a.1 - 1)
  }

  /** Sum of the absolute coordinate differences (game/distance.py:1-3). */
  function Manhattan(a: Vec, b: Vec): (d: nat)
    ensures d == 0 <==> a == b
  {
    Abs(a.0 - b.0) + Abs(a.1 - b.1)
  }

  /** Largest of the absolute coordinate differences (game/distance.py:6-8). */
  function Chebyshev(a: Vec, b: Vec): (d: nat)
    ensures d == 0 <==> a == b
    ensures d == 1 <==> a != b && a.0 - 1 <= b.0 <= a.0 + 1 && a.1 - 1 <= b.1 <= a.1 + 1
  {
    var dx, dy := Abs(a.0 - b.0), Abs(a.1 - b.1);
    if dx < dy then dy else dx
  }

  /** Distance 1 holds exactly of orthogonal neighbours. */
  lemma ManhattanUnitIffNeighbours(a: Vec, b: Vec)
    ensures Manhattan(a, b) == 1 <==> OrthogonalNeighbours(a, b)
  {
  }

  lemma ManhattanSymmetric(a: Vec, b: Vec)
    ensures Manhattan(a, b) == Manhattan(b, a)
  {
  }

  lemma ChebyshevSymmetric(a: Vec, b: Vec)
    ensures Chebyshev(a, b) == Chebyshev(b, a)
  {
  }

  lemma ManhattanTriangle(a: Vec, b: Vec, c: Vec)
    ensures Manhattan(a, c) <= Manhattan(a, b) + Manhattan(b, c)
  {
  }

  lemma ChebyshevTriangle(a: Vec, b: Vec, c: Vec)
    ensures Chebyshev(a, c) <= Chebyshev(a, b) + Chebyshev(b, c)
  {
  }

  /** The Chebyshev distance bounds the Manhattan distance from both sides. */
  lemma ChebyshevBoundsManhattan(a: Vec, b: Vec)
    ensures Chebyshev(a, b) <= Manhattan(a, b) <= 2 * Chebyshev(a, b)
  {
  }

  /** Moving both points by the same offset changes neither distance. */
  lemma TranslationInvariant(a: Vec, b: Vec, offset: Vec)
    ensures var a', b' := (a.0 + offset.0, a.1 + offset.1), (b.0 + offset.0, b.1 + offset.1);
      Manhattan(a', b') == Manhattan(a, b) && Chebyshev(a', b') == Chebyshev(a, b)
  {
  }
}
