/**
 * "HH:MM" times of day. The services compare these strings with JavaScript's string
 * operators; for zero-padded times that order is the order of the minutes of the day.
 */
module Clock {
  import opened Wrappers
  import opened Text

  /** A zero-padded time: two digits, a colon, two digits, hours 00-23 and minutes 00-59. */
  predicate IsPaddedTime(t: string) {
    && |t| == 5
    && IsDigit(t[0]) && IsDigit(t[1]) && t[2] == ':' && IsDigit(t[3]) && IsDigit(t[4])
    && DigitValue(t[0]) * 10 + DigitValue(t[1]) <= 23
    && DigitValue(t[3]) <= 5
  }

  function MinuteOfDay(t: string): (m: nat)
    requires IsPaddedTime(t)
    ensures m < 1440
  {
    (DigitValue(t[0]) * 10 + DigitValue(t[1])) * 60 + DigitValue(t[3]) * 10 + DigitValue(t[4])
  }

  function Pad2(n: nat): (s: string)
    requires n < 100
    ensures |s| == 2 && IsDigit(s[0]) && IsDigit(s[1])
    ensures DigitValue(s[0]) * 10 + DigitValue(s[1]) == n
  {
    [DigitChar(n / 10), DigitChar(n % 10)]
  }

  /** The "HH:MM" text of a minute of the day, as padStart(2, '0') and toTimeString() write it. */
  function FormatTime(m: nat): (t: string)
    requires m < 1440
    ensures IsPaddedTime(t) && MinuteOfDay(t) == m
  {
    Pad2(m / 60) + ":" + Pad2(m % 60)
  }

  /** Formatting the minute of day of a padded time gives back the same text. */
  lemma FormatMinuteOfDay(t: string)
    requires IsPaddedTime(t)
    ensures FormatTime(MinuteOfDay(t)) == t
  {
    var m := MinuteOfDay(t);
    var h := DigitValue(t[0]) * 10 + DigitValue(t[1]);
    var mm := DigitValue(t[3]) * 10 + DigitValue(t[4]);
    HoursAndMinutes(h, mm);
    var r := FormatTime(m);
    assert r == Pad2(h) + ":" + Pad2(mm);
    SameDigits(r[0], r[1], t[0], t[1]);
    SameDigits(r[3], r[4], t[3], t[4]);
  }

  /** A minute of day splits back into its hours and minutes. */
  lemma HoursAndMinutes(h: nat, mm: nat)
    requires mm < 60
    ensures (h * 60 + mm) / 60 == h && (h * 60 + mm) % 60 == mm
  {
  }

  /** Two digit pairs with the same value are the same characters. */
  lemma SameDigits(a: char, b: char, c: char, d: char)
    requires IsDigit(a) && IsDigit(b) && IsDigit(c) && IsDigit(d)
    requires DigitValue(a) * 10 + DigitValue(b) == DigitValue(c) * 10 + DigitValue(d)
    ensures a == c && b == d
  {
  }

  lemma DigitOrder(c: char, d: char)
    requires IsDigit(c) && IsDigit(d)
    ensures c < d <==> DigitValue(c) < DigitValue(d)
    ensures c == d <==> DigitValue(c) == DigitValue(d)
  {
  }

  lemma StrLessStep(a: string, b: string)
    requires a != [] && b != [] && a[0] == b[0]
    ensures StrLess(a, b) == StrLess(a[1..], b[1..])
  {
  }

  lemma {:induction false} PaddedLessIsEarlier(a: string, b: string)
    requires IsPaddedTime(a) && IsPaddedTime(b)
    ensures StrLess(a, b) <==> MinuteOfDay(a) < MinuteOfDay(b)
  {
    DigitOrder(a[0], b[0]);
    DigitOrder(a[1], b[1]);
    DigitOrder(a[3], b[3]);
    DigitOrder(a[4], b[4]);
    if a[0] != b[0] {
    } else {
      StrLessStep(a, b);
      var a1, b1 := a[1..], b[1..];
      if a[1] != b[1] {
        assert a1[0] == a[1] && b1[0] == b[1];
      } else {
        StrLessStep(a1, b1);
        var a2, b2 := a1[1..], b1[1..];
        assert a2[0] == ':' == b2[0];
        StrLessStep(a2, b2);
        var a3, b3 := a2[1..], b2[1..];
        assert a3[0] == a[3] && b3[0] == b[3];
        if a[3] != b[3] {
        } else {
          StrLessStep(a3, b3);
          var a4, b4 := a3[1..], b3[1..];
          assert a4 == [a[4]] && b4 == [b[4]];
          if a[4] == b[4] {
            StrLessStep(a4, b4);
            assert a4[1..] == [] == b4[1..];
          }
        }
      }
    }
  }

  /**
   * For zero-padded valid times the lexicographic comparisons the services use
   * (`<`, `<=`) agree with comparing minutes of the day.
   */
  lemma PaddedOrderIsTimeOrder(a: string, b: string)
    requires IsPaddedTime(a) && IsPaddedTime(b)
    ensures StrLess(a, b) <==> MinuteOfDay(a) < MinuteOfDay(b)
    ensures StrLessEq(a, b) <==> MinuteOfDay(a) <= MinuteOfDay(b)
  {
    PaddedLessIsEarlier(a, b);
    PaddedLessIsEarlier(b, a);
  }

  /**
   * Number(s) for the pieces of a time string, on the texts the model reads: after trimming,
   * "" is 0 and plain decimal digits are their value. Every other text counts as NaN here,
   * although Number() also reads signs, fractions, hexadecimal and exponent forms.
   */
  function JsNumber(s: string): Option<nat> {
    var t := Trim(s);
    if t == "" then Some(0) else ParseNat(t)
  }

  /** The first two elements of `s.split(':')`; the second is absent when s has no colon. */
  function SplitHoursMinutes(s: string): (string, Option<string>) {
    match IndexOfChar(s, ':')
    case None => (s, None)
    case Some(i) =>
      var rest := s[i + 1..];
      match IndexOfChar(rest, ':')
      case None => (s[..i], Some(rest))
      case Some(j) => (s[..i], Some(rest[..j]))
  }

  /** The minutes past midnight that `setHours(hours, mins)` denotes, before any roll-over. */
  function ParseTime(t: string): Option<nat> {
    ParseParts(SplitHoursMinutes(t))
  }

  /** The hours and minutes texts read with `Number()`; both must be numbers. */
  function ParseParts(parts: (string, Option<string>)): Option<nat> {
    var h := JsNumber(parts.0);
    var m := if parts.1.Some? then JsNumber(parts.1.value) else None;
    if h.Some? && m.Some? then Some(h.value * 60 + m.value) else None
  }

  /**
   * `subtractMinutes`: sets a Date to the parsed hours and minutes less k minutes and formats
   * its local time. Out-of-range results roll over to the neighbouring day; an unparsable time
   * gives an Invalid Date whose text starts "Inval".
   */
  function SubtractMinutes(t: string, k: nat): (r: string)
    ensures r == "Inval" || IsPaddedTime(r)
  {
    match ParseTime(t)
    case Some(v) => FormatTime((v - k) % 1440)
    case None => "Inval"
  }

  lemma TrimDigits(s: string)
    requires s != [] && IsDigit(s[0]) && IsDigit(s[|s| - 1])
    ensures Trim(s) == s
  {
    assert !IsWhitespace(s[0]) && !IsWhitespace(s[|s| - 1]);
    assert TrimStart(s) == s;
    assert TrimEnd(s) == s;
  }

  lemma ParseNatTwoDigits(s: string)
    requires |s| == 2 && IsDigit(s[0]) && IsDigit(s[1])
    ensures ParseNat(s) == Some(10 * DigitValue(s[0]) + DigitValue(s[1]))
  {
    assert s[..1] == [s[0]];
    assert ParseNat([s[0]]) == Some(DigitValue(s[0]));
  }

  lemma ParseTwoDigits(s: string)
    requires |s| == 2 && IsDigit(s[0]) && IsDigit(s[1])
    ensures JsNumber(s) == Some(DigitValue(s[0]) * 10 + DigitValue(s[1]))
  {
    TrimDigits(s);
    ParseNatTwoDigits(s);
  }

  /**
   * On a padded time, subtracting k < 1440 minutes gives the padded time k minutes earlier,
   * wrapping to the previous evening when the time is less than k minutes after midnight.
   */
  lemma SubtractMinutesPadded(t: string, k: nat)
    requires IsPaddedTime(t) && k < 1440
    ensures IsPaddedTime(SubtractMinutes(t, k))
    ensures MinuteOfDay(t) >= k ==> MinuteOfDay(SubtractMinutes(t, k)) == MinuteOfDay(t) - k
    ensures MinuteOfDay(t) < k ==> MinuteOfDay(SubtractMinutes(t, k)) == MinuteOfDay(t) + 1440 - k
  {
    ParsePadded(t);
    SubtractParsed(t, k, MinuteOfDay(t));
  }

  lemma SubtractParsed(t: string, k: nat, v: nat)
    requires ParseTime(t) == Some(v) && v < 1440 && k < 1440
    ensures IsPaddedTime(SubtractMinutes(t, k))
    ensures v >= k ==> MinuteOfDay(SubtractMinutes(t, k)) == v - k
    ensures v < k ==> MinuteOfDay(SubtractMinutes(t, k)) == v + 1440 - k
  {
    var r := if v >= k then v - k else v + 1440 - k;
    ModInDay(v - k, r);
    SubtractIs(t, k, v, r);
    FormatFacts(r);
  }

  lemma SubtractIs(t: string, k: nat, v: nat, r: int)
    requires ParseTime(t) == Some(v) && r == (v - k) % 1440
    ensures SubtractMinutes(t, k) == FormatTime(r)
  {
  }

  lemma FormatFacts(r: nat)
    requires r < 1440
    ensures IsPaddedTime(FormatTime(r)) && MinuteOfDay(FormatTime(r)) == r
  {
  }

  lemma ModInDay(d: int, r: int)
    requires 0 <= r < 1440 && (r == d || r == d + 1440)
    ensures d % 1440 == r
  {
  }

  lemma ParsePadded(t: string)
    requires IsPaddedTime(t)
    ensures ParseTime(t) == Some(MinuteOfDay(t))
  {
    SplitPadded(t);
    var h := DigitValue(t[0]) * 10 + DigitValue(t[1]);
    var m := DigitValue(t[3]) * 10 + DigitValue(t[4]);
    HoursPart(t);
    MinutesPart(t);
    ParseFromParts(t, t[..2], t[3..], h, m);
    MinuteOfDayParts(t, h, m);
  }

  lemma HoursPart(t: string)
    requires IsPaddedTime(t)
    ensures JsNumber(t[..2]) == Some(DigitValue(t[0]) * 10 + DigitValue(t[1]))
  {
    var hs := t[..2];
    assert hs[0] == t[0] && hs[1] == t[1];
    ParseTwoDigits(hs);
  }

  lemma MinutesPart(t: string)
    requires IsPaddedTime(t)
    ensures JsNumber(t[3..]) == Some(DigitValue(t[3]) * 10 + DigitValue(t[4]))
  {
    var ms := t[3..];
    assert ms[0] == t[3] && ms[1] == t[4];
    ParseTwoDigits(ms);
  }

  lemma MinuteOfDayParts(t: string, h: nat, m: nat)
    requires IsPaddedTime(t)
    requires h == DigitValue(t[0]) * 10 + DigitValue(t[1])
    requires m == DigitValue(t[3]) * 10 + DigitValue(t[4])
    ensures h * 60 + m == MinuteOfDay(t)
  {
  }

  lemma ParseFromParts(t: string, hs: string, ms: string, h: nat, m: nat)
    requires SplitHoursMinutes(t) == (hs, Some(ms))
    requires JsNumber(hs) == Some(h) && JsNumber(ms) == Some(m)
    ensures ParseTime(t) == Some(h * 60 + m)
  {
    ParsePartsOf(hs, ms, h, m);
  }

  lemma ParsePartsOf(hs: string, ms: string, h: nat, m: nat)
    requires JsNumber(hs) == Some(h) && JsNumber(ms) == Some(m)
    ensures ParseParts((hs, Some(ms))) == Some(h * 60 + m)
  {
  }

  lemma SplitPadded(t: string)
    requires IsPaddedTime(t)
    ensures SplitHoursMinutes(t) == (t[..2], Some(t[3..]))
  {
    assert IndexOfChar(t, ':') == Some(2) by {
      assert t[0] != ':' && t[1] != ':';
      assert t[1..][1..] == t[2..];
    }
    var rest := t[3..];
    assert IndexOfChar(rest, ':').None?;
  }
}
