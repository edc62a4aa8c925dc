/** The countdown to the target date: every second the remaining time in
    milliseconds is split into days, hours, minutes and seconds, and each field
    is shown as a decimal number padded to two digits. */
module Countdown {
  import opened Lists

  const MsPerSecond: int := 1000
  const MsPerMinute: int := 60 * MsPerSecond
  const MsPerHour: int := 60 * MsPerMinute
  const MsPerDay: int := 24 * MsPerHour

  datatype TimeLeft = TimeLeft(days: int, hours: int, minutes: int, seconds: int)

  /** The milliseconds a split accounts for. */
  function Total(t: TimeLeft): int
  {
    t.days * MsPerDay + t.hours * MsPerHour + t.minutes * MsPerMinute + t.seconds * MsPerSecond
  }

  /** The ranges of a clock reading. */
  predicate InRange(t: TimeLeft)
  {
    t.days >= 0 && 0 <= t.hours < 24 && 0 <= t.minutes < 60 && 0 <= t.seconds < 60
  }

  /** One tick of the interval: nothing once the target has passed, otherwise
      the floor divisions of the remaining milliseconds.  For a non-negative
      distance JavaScript's `Math.floor(a / b)` and `a % b` agree with Dafny's
      `/` and `%`. */
  function Split(distance: int): (r: Option<TimeLeft>)
    ensures r.None? <==> distance < 0
  {
    if distance < 0 then None
    else Some(TimeLeft(
      distance / MsPerDay,
      (distance % MsPerDay) / MsPerHour,
      (distance % MsPerHour) / MsPerMinute,
      (distance % MsPerMinute) / MsPerSecond))
  }

  /** What the interval does with a distance: record the split, and stop
      itself once the distance is negative. */
  datatype TickOutcome = TickOutcome(timeLeft: Option<TimeLeft>, keepRunning: bool)

  function OnTick(distance: int): (r: TickOutcome)
    ensures r.keepRunning <==> r.timeLeft.Some?
  {
    TickOutcome(Split(distance), distance >= 0)
  }

  /** A negative distance shows nothing and stops the interval. */
  lemma NegativeStops(distance: int)
    requires distance < 0
    ensures OnTick(distance) == TickOutcome(None, false)
  {
  }

  /** Euclidean division is determined by quotient and remainder. */
  lemma DivModUnique(d: int, b: int, q: int, r: int)
    requires b > 0 && d == q * b + r && 0 <= r < b
    ensures d / b == q && d % b == r
  {
    var q0, r0 := d / b, d % b;
    assert (q - q0) * b == r0 - r by {
      assert q * b + r == q0 * b + r0;
      MulSub(q, q0, b);
    }
    if q > q0 {
      MulMonotone(q - q0, b);
    } else if q < q0 {
      MulMonotone(q0 - q, b);
      MulSub(q0, q, b);
    }
  }

  lemma MulSub(x: int, y: int, b: int)
    ensures (x - y) * b == x * b - y * b
  {
  }

  lemma MulMonotone(x: int, b: int)
    requires x >= 1 && b > 0
    ensures x * b >= b
  {
  }

  /** Taking a remainder by a multiple first does not change a smaller remainder. */
  lemma {:induction false} ModOfMod(d: int, a: int, k: int)
    requires d >= 0 && a > 0 && k > 0
    ensures (d % (a * k)) % a == d % a
    ensures (d % (a * k)) / a == (d / a) % k
  {
    var q := d / (a * k);
    var r := d % (a * k);
    assert d == q * (a * k) + r;
    var q2 := r / a;
    var r2 := r % a;
    assert r == q2 * a + r2;
    assert q2 < k by {
      if q2 >= k {
        MulMonotone(q2 - k + 1, a);
        MulSub(q2 + 1, k, a);
        assert false;
      }
    }
    assert d == (q * k + q2) * a + r2;
    DivModUnique(d, a, q * k + q2, r2);
    DivModUnique(d / a, k, q, q2);
  }

  /** Every field of a split is in its range, and the split accounts for the
      distance up to the dropped milliseconds. */
  lemma {:induction false} SplitExact(distance: int)
    requires distance >= 0
    ensures Split(distance).Some?
    ensures InRange(Split(distance).value)
    ensures Total(Split(distance).value) <= distance < Total(Split(distance).value) + MsPerSecond
  {
    var t := Split(distance).value;
    var r1 := distance % MsPerDay;
    var r2 := distance % MsPerHour;
    var r3 := distance % MsPerMinute;
    ModOfMod(distance, MsPerHour, 24);
    ModOfMod(distance, MsPerMinute, 60);
    ModOfMod(distance, MsPerSecond, 60);
    assert r1 % MsPerHour == r2;
    assert distance == t.days * MsPerDay + r1;
    assert r1 == t.hours * MsPerHour + r2;
    assert r2 == (r2 / MsPerMinute) * MsPerMinute + r3 by {
      ModOfMod(distance, MsPerMinute, 60);
    }
    assert r2 / MsPerMinute == t.minutes;
    assert r3 == t.seconds * MsPerSecond + r3 % MsPerSecond;
  }

  /** A distance of zero is all-zero fields, not the "arrived" case. */
  lemma SplitZero()
    ensures Split(0) == Some(TimeLeft(0, 0, 0, 0))
  {
  }

  /** The split is the only in-range reading that accounts for the distance. */
  lemma {:induction false} SplitUnique(distance: int, t: TimeLeft)
    requires InRange(t)
    requires Total(t) <= distance < Total(t) + MsPerSecond
    ensures Split(distance) == Some(t)
  {
    var ms := distance - Total(t);
    var r3 := t.seconds * MsPerSecond + ms;
    var r2 := t.minutes * MsPerMinute + r3;
    var r1 := t.hours * MsPerHour + r2;
    DivModUnique(distance, MsPerDay, t.days, r1);
    DivModUnique(r1, MsPerHour, t.hours, r2);
    DivModUnique(distance, MsPerHour, t.days * 24 + t.hours, r2);
    DivModUnique(r2, MsPerMinute, t.minutes, r3);
    DivModUnique(distance, MsPerMinute, (t.days * 24 + t.hours) * 60 + t.minutes, r3);
    DivModUnique(r3, MsPerSecond, t.seconds, ms);
  }

  /** The digit character of `d < 10`. */
  function Digit(d: int): char
    requires 0 <= d < 10
  {
    "0123456789"[d]
  }

  /** `String(n)` for a non-negative integer: its decimal digits, no leading zero. */
  function Decimal(n: nat): string
    decreases n
  {
    if n < 10 then [Digit(n)] else Decimal(n / 10) + [Digit(n % 10)]
  }

  /** `padStart(2, '0')`: zeros in front until the string is two long. */
  function PadStart2(s: string): string
  {
    if |s| >= 2 then s else seq(2 - |s|, _ => '0') + s
  }

  /** The text shown for one field. */
  function Display(n: nat): string
  {
    PadStart2(Decimal(n))
  }

  /** The four texts shown for a reading, days first. */
  function Fields(t: TimeLeft): seq<string>
    requires InRange(t)
  {
    [Display(t.days), Display(t.hours), Display(t.minutes), Display(t.seconds)]
  }

  /** The value of a string of digits. */
  function Value(s: string): int
    decreases |s|
  {
    if s == [] then 0 else Value(s[..|s| - 1]) * 10 + DigitValue(s[|s| - 1])
  }

  function DigitValue(c: char): int
  {
    if '0' <= c <= '9' then c as int - '0' as int else 0
  }

  predicate AllDigits(s: string)
  {
    forall i :: 0 <= i < |s| ==> '0' <= s[i] <= '9'
  }

  /** `String(n)` is the decimal numeral of `n`: all digits, no leading zero
      except for 0 itself, one digit below 10 and two from 10 to 99, and reading
      it back gives `n`. */
  lemma DecimalValue(n: nat)
    ensures AllDigits(Decimal(n)) && Value(Decimal(n)) == n
    ensures 1 <= |Decimal(n)| && (n >= 10 ==> |Decimal(n)| >= 2)
    ensures n > 0 ==> Decimal(n)[0] != '0'
    ensures n < 10 ==> |Decimal(n)| == 1
    ensures 10 <= n < 100 ==> |Decimal(n)| == 2
  {
    DecimalDigits(n);
    DecimalRead(n);
  }

  lemma {:induction false} DecimalDigits(n: nat)
    ensures AllDigits(Decimal(n)) && 1 <= |Decimal(n)|
    ensures n > 0 ==> Decimal(n)[0] != '0'
    ensures n < 10 ==> |Decimal(n)| == 1
    ensures 10 <= n < 100 ==> |Decimal(n)| == 2
    ensures n >= 10 ==> |Decimal(n)| >= 2
    decreases n
  {
    if n >= 10 {
      DecimalDigits(n / 10);
      var s, d := Decimal(n / 10), Digit(n % 10);
      assert Decimal(n) == s + [d];
      assert '0' <= d <= '9';
    }
  }

  lemma {:induction false} DecimalRead(n: nat)
    ensures Value(Decimal(n)) == n
    decreases n
  {
    if n >= 10 {
      DecimalRead(n / 10);
      var s := Decimal(n);
      assert s[..|s| - 1] == Decimal(n / 10);
      assert DigitValue(s[|s| - 1]) == n % 10;
    }
  }

  /** A leading zero does not change the value of a digit string. */
  lemma {:induction false} LeadingZero(s: string)
    ensures Value("0" + s) == Value(s)
    decreases |s|
  {
    if s != [] {
      var t := "0" + s;
      assert t[..|t| - 1] == "0" + s[..|s| - 1];
      LeadingZero(s[..|s| - 1]);
    }
  }

  /** Each field shows at least two characters, the digits of the value
      preceded only by '0' padding, and reads back as the value. */
  lemma DisplayShape(n: nat)
    ensures |Display(n)| >= 2
    ensures var pad := |Display(n)| - |Decimal(n)|;
            0 <= pad && Display(n)[pad..] == Decimal(n) &&
            forall i :: 0 <= i < pad ==> Display(n)[i] == '0'
    ensures n < 10 ==> Display(n) == ['0', Digit(n)]
    ensures n >= 10 ==> Display(n) == Decimal(n)
    ensures n >= 10 ==> Display(n)[0] != '0'
    ensures n < 100 ==> |Display(n)| == 2
    ensures AllDigits(Display(n)) && Value(Display(n)) == n
  {
    DecimalValue(n);
    if n < 10 {
      assert Display(n) == "0" + Decimal(n);
      LeadingZero(Decimal(n));
    }
  }

  /** The four fields read back as days, hours, minutes and seconds; hours,
      minutes and seconds always show exactly two digits, the days at least two. */
  lemma FieldsShape(t: TimeLeft)
    requires InRange(t)
    ensures |Fields(t)| == 4
    ensures Value(Fields(t)[0]) == t.days && Value(Fields(t)[1]) == t.hours
    ensures Value(Fields(t)[2]) == t.minutes && Value(Fields(t)[3]) == t.seconds
    ensures forall k :: 0 <= k < 4 ==> AllDigits(Fields(t)[k])
    ensures |Fields(t)[0]| >= 2
    ensures |Fields(t)[1]| == 2 && |Fields(t)[2]| == 2 && |Fields(t)[3]| == 2
  {
    var f := Fields(t);
    FieldShape(t.days);
    FieldShape(t.hours);
    FieldShape(t.minutes);
    FieldShape(t.seconds);
    assert f[0] == Display(t.days) && f[1] == Display(t.hours);
    assert f[2] == Display(t.minutes) && f[3] == Display(t.seconds);
  }

  lemma FieldShape(n: nat)
    ensures AllDigits(Display(n)) && Value(Display(n)) == n
    ensures |Display(n)| >= 2 && (n < 100 ==> |Display(n)| == 2)
  {
    DisplayShape(n);
  }
}
