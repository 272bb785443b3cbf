/** Small data types and arithmetic shared by the other modules. */
module Prelude {

  datatype Option<+T> = None | Some(value: T)

  datatype Result<+T, +E> = Success(value: T) | Failure(error: E)

  function Abs(x: int): int {
    if x < 0 then -x else x
  }

  function AbsR(x: real): real {
    if x < 0.0 then -x else x
  }

  function MaxReal(a: real, b: real): real {
    if a < b then b else a
  }

  function MinReal(a: real, b: real): real {
    if b < a then b else a
  }

  function MinInt(x: int, y: int): int {
    if x < y then x else y
  }

  function MaxInt(x: int, y: int): int {
    if x < y then y else x
  }

  ghost predicate StrictlyIncreasing(s: seq<int>) {
    forall i, j | 0 <= i < j < |s| :: s[i] < s[j]
  }
}

/**
 * Python's round(a / b) and numpy's rint on an exact quotient: the nearest integer,
 * a tie going to the even neighbour.
 */
module Rounding {
  import opened Prelude

  function RoundDiv(a: int, b: int): (q: int)
    requires b > 0
    ensures -b <= 2 * (a - q * b) <= b
    ensures 2 * Abs(a - q * b) == b ==> q % 2 == 0
  {
    var q, r := a / b, a % b;
    assert a == q * b + r;
    if 2 * r < b || (2 * r == b && q % 2 == 0) then
      q
    else
      assert (q + 1) * b == q * b + b;
      q + 1
  }

  // The two clauses of RoundDiv's contract leave only one candidate.
  lemma {:induction false} RoundDivIsUnique(a: int, b: int, q: int)
    requires b > 0
    requires -b <= 2 * (a - q * b) <= b
    requires 2 * Abs(a - q * b) == b ==> q % 2 == 0
    ensures q == RoundDiv(a, b)
  {
    var p := RoundDiv(a, b);
    NearestEvenIsUnique(a, b, p, q, p * b, q * b);
  }

  lemma NearestEvenIsUnique(a: int, b: int, p: int, q: int, pb: int, qb: int)
    requires b > 0 && pb == p * b && qb == q * b
    requires -b <= 2 * (a - pb) <= b && (2 * Abs(a - pb) == b ==> p % 2 == 0)
    requires -b <= 2 * (a - qb) <= b && (2 * Abs(a - qb) == b ==> q % 2 == 0)
    ensures p == q
  {
    CloseMultiples(q, p, b, 2 * b);
  }

  // Two multiples of b less than 3/2 b apart in absolute value belong to factors at most one apart.
  lemma CloseMultiples(q: int, p: int, b: int, span: int)
    requires b > 0 && -span <= 2 * (q * b - p * b) <= span
    ensures (q - p) * b == q * b - p * b
    ensures span < 2 * b ==> q == p
    ensures span < 4 * b ==> -1 <= q - p <= 1
  {
    var d := q - p;
    assert d * b == q * b - p * b;
    if d >= 2 {
      MulLeft(2, d, b);
    } else if d <= -2 {
      MulLeft(d, -2, b);
    } else if d == 1 {
      assert d * b == b;
    } else if d == -1 {
      assert d * b == -b;
    }
  }

  lemma MulLeft(x: int, y: int, b: int)
    requires x <= y && b >= 0
    ensures x * b <= y * b
  {
  }

  lemma ExactMultiple(k: int, m: int)
    requires m > 0
    ensures (k * m) % m == 0 && (k * m) / m == k
  {
    var q, r := (k * m) / m, (k * m) % m;
    assert k * m == q * m + r;
    CloseMultiples(k, q, m, 2 * m - 1);
  }
}
