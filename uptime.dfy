/**
 * `formatUptime` of the status routes: a number of seconds of process uptime written as
 * days, hours, minutes and seconds, e.g. "1d 1h 1m 1s", leaving out the zero components and
 * writing "0s" when all of them are zero.
 *
 * The argument is a JavaScript number (a fractional number of seconds), modelled as a
 * `real`; `Math.floor` is `Floor` and `%` is JavaScript's remainder, which truncates.
 */
module Uptime {
  import Text

  /** `Math.trunc`: rounding toward zero. */
  function Trunc(x: real): (t: int)
    ensures x >= 0.0 ==> t == x.Floor
    ensures x < 0.0 ==> x <= t as real < x + 1.0 && t <= 0
  {
    if x >= 0.0 then x.Floor else -((-x).Floor)
  }

  /** Multiplying by a positive k keeps the sign. */
  lemma ScaleSign(a: real, k: real)
    requires k > 0.0
    ensures a > 0.0 <==> a * k > 0.0
    ensures a < 0.0 <==> a * k < 0.0
  {
    if a > 0.0 {
      assert a * k > 0.0;
    } else if a < 0.0 {
      assert (-a) * k > 0.0;
      assert (-a) * k == -(a * k);
    }
  }

  /** For a positive k, q is at most x / k exactly when q * k is at most x. */
  lemma QuotientAtLeast(x: real, k: real, q: real)
    requires k > 0.0
    ensures q <= x / k <==> q * k <= x
  {
    var y := x / k;
    assert x == y * k;
    assert x - q * k == (y - q) * k;
    ScaleSign(y - q, k);
  }

  /** For a positive k, q is at least x / k exactly when q * k is at least x. */
  lemma QuotientAtMost(x: real, k: real, q: real)
    requires k > 0.0
    ensures x / k <= q <==> x <= q * k
  {
    var y := x / k;
    assert x == y * k;
    assert q * k - x == (q - y) * k;
    ScaleSign(q - y, k);
  }

  /** JavaScript's `x % m` for a positive modulus: the sign of the result is that of `x`. */
  function JsMod(x: real, m: real): (r: real)
    requires m > 0.0
    ensures x >= 0.0 ==> 0.0 <= r < m
    ensures x < 0.0 ==> -m < r <= 0.0
  {
    var t := Trunc(x / m);
    QuotientAtLeast(x, m, t as real);
    QuotientAtLeast(x, m, t as real + 1.0);
    QuotientAtMost(x, m, t as real);
    QuotientAtMost(x, m, t as real - 1.0);
    assert (t as real + 1.0) * m == t as real * m + m;
    assert (t as real - 1.0) * m == t as real * m - m;
    x - m * t as real
  }

  /** The four components: whole days, hours, minutes and seconds. */
  datatype Components = Components(days: int, hours: int, minutes: int, seconds: int)

  function Split(uptime: real): Components {
    Components(
      (uptime / 86400.0).Floor,
      (JsMod(uptime, 86400.0) / 3600.0).Floor,
      (JsMod(uptime, 3600.0) / 60.0).Floor,
      JsMod(uptime, 60.0).Floor)
  }

  /** A component pushed to the parts when it is positive. */
  function Part(value: int, unit: char): seq<string> {
    if value > 0 then [Text.NatToString(value) + [unit]] else []
  }

  function Parts(uptime: real): seq<string> {
    var c := Split(uptime);
    Part(c.days, 'd') + Part(c.hours, 'h') + Part(c.minutes, 'm') + Part(c.seconds, 's')
  }

  function FormatUptime(uptime: real): string {
    var parts := Parts(uptime);
    if |parts| > 0 then Text.Join(parts, " ") else "0s"
  }

  /** Dividing a non-negative real by k and rounding down is dividing its floor by k. */
  lemma FloorDiv(x: real, k: int)
    requires x >= 0.0 && k > 0
    ensures (x / k as real).Floor == x.Floor / k
  {
    var n := x.Floor;
    var q, r := n / k, n % k;
    assert n == q * k + r && 0 <= r < k;
    assert (q * k) as real == q as real * k as real;
    QuotientAtLeast(x, k as real, q as real);
    QuotientAtLeast(x, k as real, q as real + 1.0);
    assert (q as real + 1.0) * k as real == q as real * k as real + k as real;
  }

  /** For a non-negative argument the remainder is taken from the whole seconds. */
  lemma FloorMod(x: real, k: int)
    requires x >= 0.0 && k > 0
    ensures JsMod(x, k as real).Floor == x.Floor % k
  {
    var n := x.Floor;
    FloorDiv(x, k);
    var q := n / k;
    assert Trunc(x / k as real) == q;
    assert (q * k) as real == q as real * k as real;
    assert JsMod(x, k as real) == x - (q * k) as real;
  }

  /** The remainder by 3600 or 60 is the r with n == k * q + r and 0 <= r < k. */
  lemma Remainder(n: int, k: int, q: int, r: int)
    requires k == 3600 || k == 60
    requires n == k * q + r && 0 <= r < k
    ensures n % k == r
  {
    if k == 3600 { assert n == 3600 * q + r; } else { assert n == 60 * q + r; }
  }

  /** Whole days, hours, minutes and seconds of n seconds add back up to n. */
  lemma Decompose(n: int)
    requires n >= 0
    ensures 0 <= (n % 86400) / 3600 < 24 && 0 <= (n % 3600) / 60 < 60 && 0 <= n % 60 < 60
    ensures n == n / 86400 * 86400 + (n % 86400) / 3600 * 3600 + (n % 3600) / 60 * 60 + n % 60
  {
    var d, r := n / 86400, n % 86400;
    var h, r2 := r / 3600, r % 3600;
    var m, s := r2 / 60, r2 % 60;
    Remainder(n, 3600, 24 * d + h, r2);
    Remainder(n, 60, 1440 * d + 60 * h + m, s);
  }

  /**
   * For a non-negative uptime the components are those of its whole number of seconds n:
   * n = days * 86400 + hours * 3600 + minutes * 60 + seconds with hours < 24, minutes < 60
   * and seconds < 60.
   */
  lemma SplitIsDecomposition(uptime: real)
    requires uptime >= 0.0
    ensures var c, n := Split(uptime), uptime.Floor;
      && c.days == n / 86400 && 0 <= c.hours < 24 && 0 <= c.minutes < 60 && 0 <= c.seconds < 60
      && n == c.days * 86400 + c.hours * 3600 + c.minutes * 60 + c.seconds
  {
    var c, n := Split(uptime), uptime.Floor;
    FloorDiv(uptime, 86400);
    FloorMod(uptime, 86400);
    FloorDiv(JsMod(uptime, 86400.0), 3600);
    FloorMod(uptime, 3600);
    FloorDiv(JsMod(uptime, 3600.0), 60);
    FloorMod(uptime, 60);
    Decompose(n);
  }

  /** A negative argument has no positive component and is written "0s". */
  lemma NegativeIsZero(uptime: real)
    requires uptime < 0.0
    ensures FormatUptime(uptime) == "0s"
  {
    assert (uptime / 86400.0) < 0.0;
  }

  /** No pushed part reads "0s": a pushed value is positive. */
  lemma PartIsNotZero(value: int, unit: char)
    ensures "0s" !in Part(value, unit)
  {
    if value > 0 && Part(value, unit)[0] == "0s" {
      var p := Text.NatToString(value) + [unit];
      assert Text.NatToString(value) == p[..|p| - 1] == "0" == Text.NatToString(0);
      Text.NatToStringInjective(value, 0);
    }
  }

  /** The result is "0s" exactly when less than one whole second has passed. */
  lemma ZeroSecondsIff(uptime: real)
    requires uptime >= 0.0
    ensures FormatUptime(uptime) == "0s" <==> uptime < 1.0
  {
    SplitIsDecomposition(uptime);
    var c, parts := Split(uptime), Parts(uptime);
    if uptime >= 1.0 {
      assert c.days > 0 || c.hours > 0 || c.minutes > 0 || c.seconds > 0;
      assert parts != [];
      PartIsNotZero(c.days, 'd');
      PartIsNotZero(c.hours, 'h');
      PartIsNotZero(c.minutes, 'm');
      PartIsNotZero(c.seconds, 's');
      assert "0s" !in parts;
      if |parts| > 1 {
        assert |Text.Join(parts, " ")| >= |parts[0]| + 1;
      }
    }
  }

  /** One hour is written "1h". */
  lemma OneHour()
    ensures FormatUptime(3600.0) == "1h"
  {
    SplitIsDecomposition(3600.0);
    assert Text.NatToString(1) == "1";
  }

  /** A day, an hour, a minute and a second are written "1d 1h 1m 1s". */
  lemma OneOfEach()
    ensures FormatUptime(90061.0) == "1d 1h 1m 1s"
  {
    SplitIsDecomposition(90061.0);
    assert Text.NatToString(1) == "1";
  }
}
