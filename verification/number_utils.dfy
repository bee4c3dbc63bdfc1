/** The bound-padding helpers used when one bound of a numeric range is set
    on its own. Only their documented contract is relied on anywhere: when
    the new bound collides with the current opposite bound, that bound moves
    strictly past the new one; otherwise it is returned untouched. The amount
    of padding, a percentage of the new bound's magnitude and at least one,
    is one admissible choice of the distance. */
module NumberUtils {

  function Abs(x: int): nat {
    if x < 0 then -x else x
  }

  /** How far a recomputed bound is placed from the bound that displaced it. */
  function Padding(x: int, percentage: int): (p: int)
    ensures p >= 1
  {
    var scaled := Abs(x) * percentage / 100;
    if scaled >= 1 then scaled else 1
  }

  /** calculateNewMax: the maximum to keep once the minimum becomes newMin. */
  function CalculateNewMax(curMax: int, newMin: int, percentage: int): (r: int)
    ensures newMin >= curMax ==> r > newMin
    ensures newMin < curMax ==> r == curMax
  {
    if newMin >= curMax then newMin + Padding(newMin, percentage) else curMax
  }

  /** calculateNewMin: the minimum to keep once the maximum becomes newMax. */
  function CalculateNewMin(curMin: int, newMax: int, percentage: int): (r: int)
    ensures newMax <= curMin ==> r < newMax
    ensures newMax > curMin ==> r == curMin
  {
    if newMax <= curMin then newMax - Padding(newMax, percentage) else curMin
  }
}
