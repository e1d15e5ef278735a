/**
 The `/uptime` command of FunctionalityBot: a non-negative number of
 milliseconds split into days, hours, minutes and seconds. The bot does this
 with JavaScript number division, `%` and `Math.floor`; `SplitUptime` computes
 it the same way over exact reals, and `SplitSeconds` is the plain integer
 decomposition it is proved equal to.
 */
module Uptime {

  datatype Duration = Duration(days: int, hours: int, minutes: int, seconds: int)

  /** A duration in the form a clock shows it: every unit below its limit. */
  predicate Normal(d: Duration)
  {
    && d.days >= 0
    && 0 <= d.hours < 24
    && 0 <= d.minutes < 60
    && 0 <= d.seconds < 60
  }

  /** The whole number of seconds a duration stands for. */
  function TotalSeconds(d: Duration): int
  {
    d.days * 86400 + d.hours * 3600 + d.minutes * 60 + d.seconds
  }

  /** JavaScript's `%` on a non-negative dividend and a positive divisor; the
      quotient is truncated, which for these operands is the floor. The
      result is what is left of `x` after taking away the largest whole
      number of `m`s that fits. */
  function Rem(x: real, m: real): (r: real)
    requires x >= 0.0 && m > 0.0
    ensures 0.0 <= r < m
    ensures (x / m).Floor >= 0 && x - r == m * (x / m).Floor as real
  {
    RemBounds(x, m);
    x - m * (x / m).Floor as real
  }

  /** A positive number times a fraction below one stays below it. */
  lemma RealMulBelow(m: real, t: real)
    requires m > 0.0 && 0.0 <= t < 1.0
    ensures 0.0 <= m * t < m
  {
    assert m - m * t == m * (1.0 - t);
  }

  lemma RemBounds(x: real, m: real)
    requires x >= 0.0 && m > 0.0
    ensures 0.0 <= x - m * (x / m).Floor as real < m
  {
    var y := x / m;
    var q := y.Floor as real;
    var t := y - q;
    assert m * y == x;
    assert 0.0 <= t < 1.0;
    RealMulBelow(m, t);
    assert x - m * q == m * t;
    assert m * t < m;
    assert x - m * q < m;
  }

  /** A positive number times a whole number of at least one is at least
      that number. */
  lemma MulAtLeast(m: int, k: int)
    requires m > 0 && k >= 1
    ensures m * k >= m
  {
    assert m * k == m * (k - 1) + m;
    assert m * (k - 1) >= 0;
  }

  /** Integer division is determined by any quotient and in-range remainder. */
  lemma DivUnique(n: int, m: int, q: int, r: int)
    requires m > 0 && n == m * q + r && 0 <= r < m
    ensures n / m == q && n % m == r
  {
    var q', r' := n / m, n % m;
    assert m * q' + r' == m * q + r;
    if q' < q {
      assert m * q - m * q' == m * (q - q');
      MulAtLeast(m, q - q');
    } else if q' > q {
      assert m * q' - m * q == m * (q' - q);
      MulAtLeast(m, q' - q);
    }
  }

  /** Dividing twice is dividing by the product. */
  lemma DivDiv(n: nat, a: int, b: int)
    requires a > 0 && b > 0
    ensures n / a / b == n / (a * b)
  {
    var q1, r1 := n / a, n % a;
    var q2, r2 := q1 / b, q1 % b;
    MulSplit(a, b, q2, r2);
    assert n == (a * b) * q2 + (a * r2 + r1);
    MulBelow(a, b, r2);
    DivUnique(n, a * b, q2, a * r2 + r1);
  }

  /** Multiplying out `a * (b * q + r)`. */
  lemma MulSplit(a: int, b: int, q: int, r: int)
    ensures a * (b * q + r) == (a * b) * q + a * r
  {
  }

  /** A remainder modulo `b`, scaled by `a`, leaves room for one more `a`. */
  lemma MulBelow(a: int, b: int, r: int)
    requires a > 0 && 0 <= r < b
    ensures a * r + a <= a * b
  {
    assert a * b - a * r == a * (b - r);
    MulAtLeast(a, b - r);
  }

  /** Real division of whole numbers, floored, is integer division. */
  lemma FloorOfQuotient(n: nat, m: int)
    requires m > 0
    ensures (n as real / m as real).Floor == n / m
  {
    var q, r := n / m, n % m;
    var x := n as real / m as real;
    assert x * m as real == n as real;
    assert x == q as real + r as real / m as real;
    assert 0.0 <= r as real / m as real < 1.0;
  }

  /** Flooring JavaScript's remainder is the integer remainder of the floor,
      for the two divisors the uptime split uses. */
  lemma FloorOfRem(x: real, m: int)
    requires x >= 0.0 && (m == 60 || m == 24)
    ensures Rem(x, m as real).Floor == x.Floor % m
  {
    var q := (x / m as real).Floor;
    if m == 60 {
      assert m * q <= x.Floor < m * q + m;
      assert Rem(x, m as real).Floor == x.Floor - m * q;
    } else {
      assert m * q <= x.Floor < m * q + m;
      assert Rem(x, m as real).Floor == x.Floor - m * q;
    }
    DivUnique(x.Floor, m, q, x.Floor - m * q);
  }

  /** Flooring the remainder of `uptime / unit` by `m` is the integer
      remainder of the whole units, counted from the whole seconds. */
  lemma ComponentIsIntegerRemainder(uptime: nat, unit: int, m: int)
    requires unit in {1, 60, 3600} && (m == 60 || m == 24)
    ensures Rem(uptime as real / (1000 * unit) as real, m as real).Floor
         == (uptime / 1000 / unit) % m
  {
    FloorOfQuotient(uptime, 1000 * unit);
    FloorOfRem(uptime as real / (1000 * unit) as real, m);
    DivDiv(uptime, 1000, unit);
  }

  /** The days are the whole seconds divided by the seconds of a day. */
  lemma DaysAreIntegerQuotient(uptime: nat)
    ensures (uptime as real / 86400000.0).Floor == uptime / 1000 / 86400
  {
    FloorOfQuotient(uptime, 86400000);
    DivDiv(uptime, 1000, 86400);
  }

  /** A clock-form duration is recovered from its total seconds. */
  lemma {:induction false} SplitSecondsOfTotal(d: Duration)
    requires Normal(d)
    ensures SplitSeconds(TotalSeconds(d)) == d
  {
    var s := TotalSeconds(d);
    DivUnique(s, 60, d.days * 1440 + d.hours * 60 + d.minutes, d.seconds);
    DivUnique(s / 60, 60, d.days * 24 + d.hours, d.minutes);
    DivDiv(s, 60, 60);
    DivUnique(s / 3600, 24, d.days, d.hours);
    DivDiv(s, 3600, 24);
  }

  /** The uptime split as the bot computes it. It is the integer split of
      the whole seconds of the uptime, so its components are in clock form,
      add back up to those seconds, and are all zero under one second. */
  function SplitUptime(uptime: nat): (d: Duration)
    ensures d == SplitSeconds(uptime / 1000)
    ensures Normal(d)
    ensures TotalSeconds(d) == uptime / 1000
    ensures uptime < 1000 ==> d == Duration(0, 0, 0, 0)
  {
    ComponentsAreIntegerSplit(uptime);
    Duration(
      (uptime as real / 86400000.0).Floor,
      Rem(uptime as real / 3600000.0, 24.0).Floor,
      Rem(uptime as real / 60000.0, 60.0).Floor,
      Rem(uptime as real / 1000.0, 60.0).Floor)
  }

  /** Each floored real-number component of the uptime split is the matching
      integer component of the whole seconds. */
  lemma ComponentsAreIntegerSplit(uptime: nat)
    ensures var s := uptime / 1000;
      && (uptime as real / 86400000.0).Floor == s / 86400
      && Rem(uptime as real / 3600000.0, 24.0).Floor == (s / 3600) % 24
      && Rem(uptime as real / 60000.0, 60.0).Floor == (s / 60) % 60
      && Rem(uptime as real / 1000.0, 60.0).Floor == s % 60
  {
    ComponentIsIntegerRemainder(uptime, 1, 60);
    ComponentIsIntegerRemainder(uptime, 60, 60);
    ComponentIsIntegerRemainder(uptime, 3600, 24);
    DaysAreIntegerQuotient(uptime);
    assert uptime / 1000 / 1 == uptime / 1000;
  }

  /** The integer decomposition of a whole number of seconds: a clock-form
      duration whose components add back up to those seconds. */
  function SplitSeconds(s: nat): (d: Duration)
    ensures Normal(d)
    ensures TotalSeconds(d) == s
  {
    DivDiv(s, 60, 60);
    DivDiv(s, 3600, 24);
    var d := Duration(s / 86400, (s / 3600) % 24, (s / 60) % 60, s % 60);
    assert s == 60 * (s / 60) + s % 60;
    assert s / 60 == 60 * (s / 3600) + d.minutes;
    assert s / 3600 == 24 * d.days + d.hours;
    d
  }

  /** Any clock-form duration, plus fewer than 1000 extra milliseconds, is
      exactly what the bot shows. */
  lemma {:induction false} SplitUptimeRoundTrip(d: Duration, ms: nat)
    requires Normal(d) && ms < 1000
    ensures SplitUptime(TotalSeconds(d) * 1000 + ms) == d
  {
    DivUnique(TotalSeconds(d) * 1000 + ms, 1000, TotalSeconds(d), ms);
    SplitSecondsOfTotal(d);
  }
}
