/** Python's `round` on exact values: to the nearest multiple, ties to the even one. */
module Rounding {
  function HalfEven(x: real): (n: int)
    ensures x - 0.5 <= n as real <= x + 0.5
  {
    var down := x.Floor;
    var part := x - down as real;
    if part < 0.5 then down
    else if part > 0.5 then down + 1
    else if down % 2 == 0 then down
    else down + 1
  }

  /** `round(x, digits)` with scale = 10^digits. */
  function ToScale(x: real, scale: int): real
    requires scale > 0
  {
    HalfEven(x * scale as real) as real / scale as real
  }

  function Round3(x: real): real { ToScale(x, 1000) }

  function Round6(x: real): real { ToScale(x, 1_000_000) }

  /** The nearest integer, and of two that are equally near the even one: there is only one such. */
  lemma HalfEvenIff(x: real, n: int)
    ensures n == HalfEven(x) <==> && -0.5 <= x - n as real <= 0.5
                                  && (x - n as real == 0.5 || x - n as real == -0.5 ==> n % 2 == 0)
  {
    var down := x.Floor;
    assert -0.5 <= x - n as real <= 0.5 ==> n == down || n == down + 1;
  }

  /** Milliseconds and millionths. */
  lemma Scales(x: real)
    ensures Round3(x) * 1000.0 == HalfEven(x * 1000.0) as real
    ensures Round6(x) * 1000000.0 == HalfEven(x * 1000000.0) as real
  {
  }
}
