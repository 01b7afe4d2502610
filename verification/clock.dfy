/** Times of day as the store keeps them: zero-padded "HH:MM" text, compared
    with JavaScript's string order. */
module Clock {

  type Time = string

  /** JavaScript's `<` on strings, as lexicographic order on characters (Unicode
      scalar values); it agrees with JavaScript's UTF-16 code-unit order on texts
      without characters above U+FFFF. */
  predicate Less(a: string, b: string)
  {
    LessFrom(a, b, 0)
  }

  /** The comparison from position `i` on, the positions before it being equal. */
  predicate LessFrom(a: string, b: string, i: nat)
    decreases |a| - i
  {
    if |b| <= i then false
    else if |a| <= i then true
    else if a[i] != b[i] then a[i] < b[i]
    else LessFrom(a, b, i + 1)
  }

  lemma {:induction false} LessFromIrreflexive(a: string, i: nat)
    ensures !LessFrom(a, a, i)
    decreases |a| - i
  {
    if i < |a| {
      LessFromIrreflexive(a, i + 1);
    }
  }

  lemma LessIrreflexive(a: string)
    ensures !Less(a, a)
  {
    LessFromIrreflexive(a, 0);
  }

  lemma {:induction false} LessFromTransitive(a: string, b: string, c: string, i: nat)
    requires LessFrom(a, b, i) && LessFrom(b, c, i)
    ensures LessFrom(a, c, i)
    decreases |a| - i
  {
    if i < |a| && a[i] == b[i] && b[i] == c[i] {
      LessFromTransitive(a, b, c, i + 1);
    }
  }

  lemma LessTransitive(a: string, b: string, c: string)
    requires Less(a, b) && Less(b, c)
    ensures Less(a, c)
  {
    LessFromTransitive(a, b, c, 0);
  }

  lemma {:induction false} LessFromTotal(a: string, b: string, i: nat)
    requires i <= |a| && i <= |b| && a[i..] != b[i..]
    ensures LessFrom(a, b, i) || LessFrom(b, a, i)
    decreases |a| - i
  {
    if i < |a| && i < |b| && a[i] == b[i] {
      assert a[i..] == [a[i]] + a[i + 1..] && b[i..] == [b[i]] + b[i + 1..];
      LessFromTotal(a, b, i + 1);
    }
  }

  /** Any two different strings are ordered one way or the other. */
  lemma LessTotal(a: string, b: string)
    requires a != b
    ensures Less(a, b) || Less(b, a)
  {
    assert a[0..] == a && b[0..] == b;
    LessFromTotal(a, b, 0);
  }

  predicate IsDigit(c: char) { '0' <= c <= '9' }

  function DigitValue(c: char): (n: nat)
    requires IsDigit(c)
    ensures n < 10
  {
    c as int - '0' as int
  }

  function Digit(n: nat): (c: char)
    requires n < 10
    ensures IsDigit(c) && DigitValue(c) == n
  {
    ('0' as int + n) as char
  }

  /** `Math.floor(n / 10)`, counted by repeated subtraction. */
  function Tens(n: nat): (q: nat)
    ensures q * 10 <= n < q * 10 + 10
  {
    if n < 10 then 0 else Tens(n - 10) + 1
  }

  /** `Math.floor(m / 60)`: the whole hours in a minute total. */
  function Hours(m: nat): (q: nat)
    ensures q * 60 <= m < q * 60 + 60
  {
    if m < 60 then 0 else Hours(m - 60) + 1
  }

  /** The text the slot generator builds from an hour and a minute: each
      written with `String(n).padStart(2, '0')` (for a number below 100, its
      tens digit and its units digit), joined by a colon. */
  function Format(hour: nat, minute: nat): (t: Time)
    requires hour < 100 && minute < 100
  {
    var ht, mt := Tens(hour), Tens(minute);
    [Digit(ht), Digit(hour - ht * 10), ':', Digit(mt), Digit(minute - mt * 10)]
  }

  /** Two digits, a colon and two digits. */
  predicate Shaped(t: string)
  {
    |t| == 5 && IsDigit(t[0]) && IsDigit(t[1]) && t[2] == ':' && IsDigit(t[3]) && IsDigit(t[4])
  }

  /** `t.split(':').map(Number)[0]` on a shaped string. */
  function Hour(t: string): nat
    requires Shaped(t)
  {
    10 * DigitValue(t[0]) + DigitValue(t[1])
  }

  /** `t.split(':').map(Number)[1]` on a shaped string. */
  function Minute(t: string): nat
    requires Shaped(t)
  {
    10 * DigitValue(t[3]) + DigitValue(t[4])
  }

  /** A valid time of day, "00:00" to "23:59". */
  predicate WellFormed(t: string)
  {
    Shaped(t) && Hour(t) < 24 && Minute(t) < 60
  }

  /** Minutes since midnight. */
  function Minutes(t: string): nat
    requires Shaped(t)
  {
    Hour(t) * 60 + Minute(t)
  }

  /** The minutes-since-midnight value `m` written as "HH:MM". */
  function TimeAt(m: nat): Time
    requires m < 24 * 60
  {
    var hour := Hours(m);
    Format(hour, m - hour * 60)
  }

  /** An hour and a minute below 60 format as the time of their minute total. */
  lemma FormatIsTimeAt(hour: nat, minute: nat)
    requires hour < 24 && minute < 60
    ensures Format(hour, minute) == TimeAt(hour * 60 + minute)
  {
    assert Hours(hour * 60 + minute) == hour;
  }

  /** Formatting a valid hour and minute gives a valid time that parses back to them. */
  lemma ParseFormat(hour: nat, minute: nat)
    requires hour < 24 && minute < 60
    ensures WellFormed(Format(hour, minute))
    ensures Hour(Format(hour, minute)) == hour && Minute(Format(hour, minute)) == minute
  {
    var t := Format(hour, minute);
    var ht, mt := Tens(hour), Tens(minute);
    assert t[0] == Digit(ht) && t[1] == Digit(hour - ht * 10);
    assert t[3] == Digit(mt) && t[4] == Digit(minute - mt * 10);
  }

  /** Parsing a valid time and formatting it again gives the same text. */
  lemma FormatParse(t: string)
    requires WellFormed(t)
    ensures Format(Hour(t), Minute(t)) == t
  {
    var h, m := Hour(t), Minute(t);
    assert Tens(h) == DigitValue(t[0]) && Tens(m) == DigitValue(t[3]);
    assert Digit(Tens(h)) == t[0] && Digit(h - Tens(h) * 10) == t[1];
    assert Digit(Tens(m)) == t[3] && Digit(m - Tens(m) * 10) == t[4];
    assert Format(h, m) == [t[0], t[1], ':', t[3], t[4]];
  }

  /** `TimeAt` is a valid time that stands for the same number of minutes. */
  lemma TimeAtMinutes(m: nat)
    requires m < 24 * 60
    ensures WellFormed(TimeAt(m)) && Minutes(TimeAt(m)) == m
  {
    ParseFormat(Hours(m), m - Hours(m) * 60);
  }

  /** Every valid time is the text of its own minute total. */
  lemma TimeAtOfMinutes(t: string)
    requires WellFormed(t)
    ensures Minutes(t) < 24 * 60 && TimeAt(Minutes(t)) == t
  {
    FormatIsTimeAt(Hour(t), Minute(t));
    FormatParse(t);
  }

  /** Distinct minute values give distinct texts. */
  lemma TimeAtInjective(m: nat, n: nat)
    requires m < 24 * 60 && n < 24 * 60
    ensures TimeAt(m) == TimeAt(n) <==> m == n
  {
    TimeAtMinutes(m);
    TimeAtMinutes(n);
  }

  /** The generator's loop test `h1 < h2 || (h1 === h2 && m1 < m2)` compares minute totals. */
  lemma ClockBefore(h1: nat, m1: nat, h2: nat, m2: nat)
    requires m1 < 60 && m2 < 60
    ensures (h1 < h2 || (h1 == h2 && m1 < m2)) <==> h1 * 60 + m1 < h2 * 60 + m2
  {
  }

  /** On well-formed times the string order is the order of the clock: zero
      padding makes the lexicographic comparison agree with minutes since midnight. */
  lemma LessIsEarlier(a: string, b: string)
    requires WellFormed(a) && WellFormed(b)
    ensures Less(a, b) <==> Minutes(a) < Minutes(b)
  {
    assert LessFrom(a, b, 4) == (a[4] < b[4]);
    assert LessFrom(a, b, 3) == if a[3] != b[3] then a[3] < b[3] else LessFrom(a, b, 4);
    assert LessFrom(a, b, 2) == LessFrom(a, b, 3);
    assert LessFrom(a, b, 1) == if a[1] != b[1] then a[1] < b[1] else LessFrom(a, b, 2);
    ClockBefore(Hour(a), Minute(a), Hour(b), Minute(b));
  }
}
