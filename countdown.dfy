/**
 * The launch countdown: the milliseconds left split into days, hours,
 * minutes and seconds, each shown with at least two digits
 * (src/components/CountdownTimer.tsx).
 */
module Countdown {
  import opened Text

  const MsPerSecond := 1000
  const MsPerMinute := 60_000
  const MsPerHour := 3_600_000
  const MsPerDay := 86_400_000

  datatype TimeLeft = TimeLeft(days: int, hours: int, minutes: int, seconds: int)

  /** The state before the first tick. */
  const Zero := TimeLeft(0, 0, 0, 0)

  /** The milliseconds a `TimeLeft` stands for, to the second. */
  function Millis(t: TimeLeft): int {
    t.days * MsPerDay + t.hours * MsPerHour + t.minutes * MsPerMinute + t.seconds * MsPerSecond
  }

  /**
   * `calculateTimeLeft` for `difference = launchDate - now` (whole
   * milliseconds); a launch that has passed leaves the state as it was.
   */
  function CalculateTimeLeft(difference: int, previous: TimeLeft): (t: TimeLeft)
    ensures difference <= 0 ==> t == previous
    ensures difference > 0 ==> 0 <= t.days && 0 <= t.hours < 24 && 0 <= t.minutes < 60 && 0 <= t.seconds < 60
    ensures difference > 0 ==> Millis(t) <= difference < Millis(t) + MsPerSecond
  {
    if difference > 0 then
      var t := TimeLeft(difference / MsPerDay,
                        (difference % MsPerDay) / MsPerHour,
                        (difference % MsPerHour) / MsPerMinute,
                        (difference % MsPerMinute) / MsPerSecond);
      SplitMillis(difference);
      t
    else previous
  }

  lemma SplitMillis(d: int)
    requires d > 0
    ensures var t := TimeLeft(d / MsPerDay, (d % MsPerDay) / MsPerHour, (d % MsPerHour) / MsPerMinute, (d % MsPerMinute) / MsPerSecond);
            0 <= t.days && 0 <= t.hours < 24 && 0 <= t.minutes < 60 && 0 <= t.seconds < 60
            && Millis(t) <= d < Millis(t) + MsPerSecond
  {
    var days, r1 := d / MsPerDay, d % MsPerDay;
    var hours, r2 := r1 / MsPerHour, r1 % MsPerHour;
    assert hours < 24;
    ModOfMultiple(24 * days + hours, r2, MsPerHour);
    var minutes, r3 := r2 / MsPerMinute, r2 % MsPerMinute;
    assert minutes < 60;
    ModOfMultiple(60 * (24 * days + hours) + minutes, r3, MsPerMinute);
    var seconds := r3 / MsPerSecond;
    assert seconds < 60;
  }

  /** The remainder of `m * q + r` by `m` is `r` when `0 <= r < m`. */
  lemma ModOfMultiple(q: int, r: int, m: int)
    requires m > 0 && 0 <= r < m
    ensures (m * q + r) % m == r
  {
    var x := m * q + r;
    var k := x / m - q;
    assert m * k == r - x % m;
    if k >= 1 {
      MulAtLeast(m, k);
    } else if k <= -1 {
      MulAtLeast(m, -k);
    }
  }

  lemma MulAtLeast(m: int, k: int)
    requires m > 0 && k >= 1
    ensures m * k >= m
  {
  }

  /** `value.toString().padStart(2, '0')`: at least two digits, never cut. */
  function PadTwo(n: nat): (r: string)
    ensures |r| >= 2 && |r| >= |NatToString(n)|
    ensures r[|r| - |NatToString(n)|..] == NatToString(n)
    ensures forall i :: 0 <= i < |r| - |NatToString(n)| ==> r[i] == '0'
    ensures n < 10 ==> |r| == 2 && r[0] == '0'
    ensures n >= 10 ==> r == NatToString(n)
  {
    var s := NatToString(n);
    if |s| < 2 then "0" + s else s
  }

  /** The padded field is all digits and still denotes `n`: the countdown shows the number it computed. */
  lemma PadTwoValue(n: nat)
    ensures forall i :: 0 <= i < |PadTwo(n)| ==> IsDigit(PadTwo(n)[i])
    ensures DigitsValue(PadTwo(n)) == n
  {
    var s := NatToString(n);
    NatToStringValue(n);
    if |s| < 2 {
      LeadingZeroValue(s);
    }
  }
}
