/**
 * The JavaScript values the player code computes with: IEEE numbers
 * abstracted to exact reals plus NaN and the two infinities, and the
 * string placeholder the component shows before the player has mounted.
 */
module JsNumber {

  datatype Num = NaN | PosInf | NegInf | Finite(r: real)

  /**
   * A time as App.js holds it: the placeholder `"00:00"` used while
   * `playerRef.current` is still null, the `null` a mounted backend
   * reports before it is ready, or a reported number.
   */
  datatype Reading = Placeholder | NotReady | Reported(n: Num)

  /**
   * `Number(x)`, the coercion that `isNaN`, `*` and `-` apply: the
   * placeholder string is not numeric, so it is NaN, and `null` is 0.
   */
  function ToNumber(x: Reading): (n: Num)
    ensures x.Placeholder? ==> n.NaN?
    ensures x.NotReady? ==> n == Finite(0.0)
    ensures x.Reported? ==> n == x.n
  {
    match x
    case Placeholder => NaN
    case NotReady => Finite(0.0)
    case Reported(n) => n
  }

  /** JavaScript subtraction `a - b` (exact on finite operands). */
  function Sub(a: Num, b: Num): (d: Num)
    ensures d.NaN? <==> a.NaN? || b.NaN? || (a == b && !a.Finite?)
    ensures a.Finite? && b.Finite? ==> d == Finite(a.r - b.r)
    ensures d.Finite? ==> a.Finite? && b.Finite?
  {
    match (a, b)
    case (NaN, _) => NaN
    case (_, NaN) => NaN
    case (Finite(x), Finite(y)) => Finite(x - y)
    case (PosInf, PosInf) => NaN
    case (NegInf, NegInf) => NaN
    case (PosInf, _) => PosInf
    case (NegInf, _) => NegInf
    case (Finite(_), PosInf) => NegInf
    case (Finite(_), NegInf) => PosInf
  }

  /** `a + c` for a finite constant `c`, as in `getCurrentTime() + 10`. */
  function Offset(a: Num, c: real): (s: Num)
    ensures a.Finite? <==> s.Finite?
    ensures a.Finite? ==> s.r == a.r + c
    ensures !a.Finite? ==> s == a
  {
    if a.Finite? then Finite(a.r + c) else a
  }

  /** Truncation toward zero, `ToIntegerOrInfinity` on a finite value. */
  function Trunc(x: real): (n: int)
    ensures 0.0 <= x ==> n as real <= x < n as real + 1.0
    ensures x < 0.0 ==> n as real - 1.0 < x <= n as real
  {
    if x >= 0.0 then x.Floor else -((-x).Floor)
  }
}
