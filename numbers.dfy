/**
 * Numbers as the journal sees them: the reading `parseFloat` makes of a
 * field, JavaScript truthiness of that reading, and `toFixed` rounding,
 * all over exact reals.
 */
module Numbers {
  import opened Wrappers

  /** What `parseFloat` makes of a value: `Some(x)` for a number, `None` for NaN. */
  type Num = Option<real>

  /** JavaScript truthiness of a parsed number: neither NaN nor zero. */
  predicate Truthy(n: Num) {
    n.Some? && n.value != 0.0
  }

  function Abs(x: real): (r: real)
    ensures r >= 0.0
    ensures r == x || r == -x
  {
    if x < 0.0 then -x else x
  }

  /**
   * The integer nearest to `y`, halves rounded away from zero: the digit
   * string `toFixed` produces for a value already scaled by a power of ten.
   * The two ensures determine the result uniquely.
   */
  function RoundHalfAway(y: real): (n: int)
    ensures y >= 0.0 ==> y - 0.5 < n as real <= y + 0.5
    ensures y < 0.0 ==> y - 0.5 <= n as real < y + 0.5
  {
    if y >= 0.0 then (y + 0.5).Floor else -((-y + 0.5).Floor)
  }

  /** `x.toFixed(1)` read back as a number. */
  function ToFixed1(x: real): (r: real)
    ensures -0.05 <= r - x <= 0.05
    ensures x >= 0.0 ==> r >= 0.0
  {
    RoundHalfAway(x * 10.0) as real / 10.0
  }

  /** `x.toFixed(2)` read back as a number. */
  function ToFixed2(x: real): (r: real)
    ensures -0.005 <= r - x <= 0.005
    ensures x >= 0.0 ==> r >= 0.0
  {
    RoundHalfAway(x * 100.0) as real / 100.0
  }

  /** An integer is its own rounding. */
  lemma RoundInteger(k: int)
    ensures RoundHalfAway(k as real) == k
  {
  }

  /** Rounding to one place keeps a percentage within [0, 100]. */
  lemma ToFixed1Percentage(x: real)
    requires 0.0 <= x <= 100.0
    ensures 0.0 <= ToFixed1(x) <= 100.0
  {
    var n := RoundHalfAway(x * 10.0);
    assert n as real <= 1000.5;
    assert n <= 1000;
  }

  /** Reading back a `toFixed(2)` string and rounding it again changes nothing. */
  lemma ToFixed2Idempotent(x: real)
    ensures ToFixed2(ToFixed2(x)) == ToFixed2(x)
  {
    var n := RoundHalfAway(x * 100.0);
    assert ToFixed2(x) * 100.0 == n as real;
    RoundInteger(n);
  }
}
