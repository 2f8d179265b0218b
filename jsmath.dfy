/** The part of JavaScript's `Math` the controllers use, on integers. */
module JsMath {

  /** `Math.abs`. */
  function Abs(x: int): (r: int)
    ensures r >= 0 && (r == x || r == -x)
  {
    if x < 0 then -x else x
  }
}
