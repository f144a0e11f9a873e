/**
  `format_time`: seconds as `HH:MM:SS.mmm`. The milliseconds are the
  fractional part of the seconds times 1000, truncated; the hours, minutes
  and seconds come from the integer part by 60-based `divmod`.
 */
module TimeFormat {
  import opened Wrappers
  import opened Decimal

  /** Python's `int(x)` on a number: truncation toward zero. */
  function Trunc(x: real): int {
    if x >= 0.0 then x.Floor else -((-x).Floor)
  }

  /** `int((x % 1) * 1000)`: Python's `%` on a float takes the sign of the divisor, so `x % 1` is `x - floor(x)`. */
  function Millis(x: real): int {
    ((x - x.Floor as real) * 1000.0).Floor
  }

  datatype Clock = Clock(hours: int, minutes: int, seconds: int, millis: int)

  /**
    The fields `format_time` prints. `divmod` by 60 floors, which Dafny's `/`
    and `%` by a positive divisor also do, so negative inputs come out as in
    Python too.
   */
  function Decompose(x: real): (c: Clock)
    ensures c.hours * 3600 + c.minutes * 60 + c.seconds == Trunc(x)
    ensures 0 <= c.minutes < 60 && 0 <= c.seconds < 60
    ensures 0 <= c.millis <= 999
    ensures c.millis as real <= (x - x.Floor as real) * 1000.0 < c.millis as real + 1.0
    ensures x >= 0.0 ==> c.hours >= 0 && c.hours * 3600 + c.minutes * 60 + c.seconds == x.Floor
  {
    var ms := Millis(x);
    var total := Trunc(x);
    var mins, secs := total / 60, total % 60;
    var hours, m := mins / 60, mins % 60;
    Clock(hours, m, secs, ms)
  }

  /** The f-string `{hours:02}:{mins:02}:{secs:02}.{ms:03}`. */
  function Render(c: Clock): string {
    ZeroPadded(c.hours, 2) + ":" + ZeroPadded(c.minutes, 2) + ":" + ZeroPadded(c.seconds, 2) + "." + ZeroPadded(c.millis, 3)
  }

  function FormatTime(seconds: real): string {
    Render(Decompose(seconds))
  }

  /** Reads an optionally negative numeral, as the hours field may be. */
  function ParseSigned(s: string): Option<int> {
    if |s| >= 1 && AllDigits(s) then Some(Parse(s))
    else if |s| >= 2 && s[0] == '-' && AllDigits(s[1..]) then Some(-(Parse(s[1..]) as int))
    else None
  }

  /**
    Reads `H:MM:SS.mmm` back: any number of hour digits, then exactly two
    digits of minutes, two of seconds and three of milliseconds.
   */
  function ParseClock(s: string): Option<Clock> {
    if |s| < 11 then None
    else
      var n := |s|;
      var h, mm, ss, ms := s[..n - 10], s[n - 9..n - 7], s[n - 6..n - 4], s[n - 3..];
      if s[n - 10] == ':' && s[n - 7] == ':' && s[n - 4] == '.' && AllDigits(mm) && AllDigits(ss) && AllDigits(ms)
      then
        match ParseSigned(h)
        case Some(hours) => Some(Clock(hours, Parse(mm), Parse(ss), Parse(ms)))
        case None => None
      else None
  }

  lemma PaddedNumeral(n: nat, width: nat)
    ensures |Pad(n, width)| >= 1 && AllDigits(Pad(n, width)) && Parse(Pad(n, width)) == n
  {
    PadSound(n, width);
    DigitsRoundTrip(n);
  }

  lemma UnsignedParses(p: string)
    requires |p| >= 1 && AllDigits(p)
    ensures ParseSigned(p) == Some(Parse(p) as int)
  {
  }

  lemma NegativeParses(z: string, p: string, n: int)
    requires z == "-" + p && |p| >= 1 && AllDigits(p) && Parse(p) == -n
    ensures ParseSigned(z) == Some(n)
  {
    assert !IsDigit(z[0]);
    assert z[1..] == p;
  }

  lemma ZeroPaddedParses(n: int, width: nat)
    requires width >= 1
    ensures ParseSigned(ZeroPadded(n, width)) == Some(n)
  {
    if n < 0 {
      NegativePaddedParses(n, width);
    } else {
      var p := Pad(n, width);
      assert ZeroPadded(n, width) == p;
      assert |p| >= 1 && AllDigits(p) && Parse(p) == n by { PaddedNumeral(n, width); }
      assert ParseSigned(p) == Some(Parse(p) as int) by { UnsignedParses(p); }
    }
  }

  lemma NegativePaddedParses(n: int, width: nat)
    requires width >= 1 && n < 0
    ensures ParseSigned(ZeroPadded(n, width)) == Some(n)
  {
    PaddedNumeral(-n, width - 1);
    NegativeParses(ZeroPadded(n, width), Pad(-n, width - 1), n);
  }

  /** A field below 10^width is printed in exactly `width` digits. */
  lemma FixedWidth(n: int, width: nat)
    requires width >= 1 && 0 <= n < Pow10(width)
    ensures |ZeroPadded(n, width)| == width && AllDigits(ZeroPadded(n, width)) && Parse(ZeroPadded(n, width)) == n
  {
    PadSound(n, width);
  }

  lemma HoursField(n: int)
    ensures |ZeroPadded(n, 2)| >= 1 && ParseSigned(ZeroPadded(n, 2)) == Some(n)
  {
    ZeroPaddedParses(n, 2);
    if n < 0 { PadSound(-n, 1); } else { PadSound(n, 2); }
  }

  /** Where the fields sit in `H:MM:SS.mmm`, counted from the end. */
  lemma Layout(h: string, m: string, s: string, ms: string)
    requires |m| == 2 && |s| == 2 && |ms| == 3
    ensures var t := h + ":" + m + ":" + s + "." + ms; var n := |t|;
      && n == |h| + 10
      && t[..n - 10] == h && t[n - 10] == ':' && t[n - 9..n - 7] == m
      && t[n - 7] == ':' && t[n - 6..n - 4] == s && t[n - 4] == '.' && t[n - 3..] == ms
  {
    var t := h + ":" + m + ":" + s + "." + ms;
    var n := |t|;
    assert t[..n - 10] == h;
    assert t[n - 9..n - 7] == m;
    assert t[n - 6..n - 4] == s;
    assert t[n - 3..] == ms;
  }

  /** Reading back joined fields: each field as it was. */
  lemma ParseJoined(h: string, m: string, s: string, ms: string, hours: int)
    requires ParseSigned(h) == Some(hours)
    requires |m| == 2 && |s| == 2 && |ms| == 3 && AllDigits(m) && AllDigits(s) && AllDigits(ms)
    ensures ParseClock(h + ":" + m + ":" + s + "." + ms) == Some(Clock(hours, Parse(m), Parse(s), Parse(ms)))
  {
    Layout(h, m, s, ms);
  }

  /** A clock whose minutes, seconds and milliseconds are in range reads back from its rendering. */
  lemma RenderRoundTrip(c: Clock)
    requires 0 <= c.minutes < 60 && 0 <= c.seconds < 60 && 0 <= c.millis <= 999
    ensures ParseClock(Render(c)) == Some(c)
  {
    var h, m, s, ms := ZeroPadded(c.hours, 2), ZeroPadded(c.minutes, 2), ZeroPadded(c.seconds, 2), ZeroPadded(c.millis, 3);
    assert |h| >= 1 && ParseSigned(h) == Some(c.hours) by { HoursField(c.hours); }
    assert Pow10(2) == 100 && Pow10(3) == 1000;
    assert |m| == 2 && AllDigits(m) && Parse(m) == c.minutes by { FixedWidth(c.minutes, 2); }
    assert |s| == 2 && AllDigits(s) && Parse(s) == c.seconds by { FixedWidth(c.seconds, 2); }
    assert |ms| == 3 && AllDigits(ms) && Parse(ms) == c.millis by { FixedWidth(c.millis, 3); }
    ParseJoined(h, m, s, ms, c.hours);
  }

  /**
    Formatting loses nothing: the string reads back as the very fields it
    was printed from, so minutes and seconds take exactly two characters and
    milliseconds exactly three.
   */
  lemma FormatTimeRoundTrip(x: real)
    ensures ParseClock(FormatTime(x)) == Some(Decompose(x))
  {
    RenderRoundTrip(Decompose(x));
  }

  /**
    For a non-negative time the hours are zero-padded to two digits but not
    capped: the hours field is as wide as the hours' numeral when that has
    more than two digits, so 100 hours or more take three or more.
   */
  lemma HoursWidth(x: real)
    requires x >= 0.0
    ensures var h := Decompose(x).hours;
      |FormatTime(x)| == 10 + (if |Digits(h)| < 2 then 2 else |Digits(h)|)
    ensures Decompose(x).hours >= 100 ==> |FormatTime(x)| >= 13
  {
    var c := Decompose(x);
    PadSound(c.hours, 2);
    assert Pow10(2) == 100 && Pow10(3) == 1000;
    FixedWidth(c.minutes, 2);
    FixedWidth(c.seconds, 2);
    FixedWidth(c.millis, 3);
    if c.hours >= 100 {
      DigitsLength(c.hours, 2);
    }
  }

  /** Zero-padded renderings of the field values the examples below need. */
  lemma SmallFields()
    ensures ZeroPadded(0, 2) == "00" && ZeroPadded(0, 3) == "000" && ZeroPadded(1, 2) == "01"
    ensures ZeroPadded(59, 2) == "59" && ZeroPadded(500, 3) == "500" && ZeroPadded(999, 3) == "999"
    ensures ZeroPadded(100, 2) == "100"
  {
    assert Zeros(1) == "0" && Zeros(2) == "00";
    assert Digits(0) == "0" && Digits(1) == "1" && Digits(59) == "59";
    assert Digits(500) == "500" && Digits(999) == "999" && Digits(100) == "100";
  }

  /** Midnight, and the last whole millisecond of the first minute: 0.0 and 59.999. */
  lemma FormatTimeFirstMinute()
    ensures FormatTime(0.0) == "00:00:00.000"
    ensures FormatTime(59.999) == "00:00:59.999"
  {
    SmallFields();
    assert Decompose(0.0) == Clock(0, 0, 0, 0);
    assert Decompose(59.999) == Clock(0, 0, 59, 999);
  }

  /** One hour, and one hour, one minute, one and a half seconds: 3600.0 and 3661.5. */
  lemma FormatTimeFirstHour()
    ensures FormatTime(3600.0) == "01:00:00.000"
    ensures FormatTime(3661.5) == "01:01:01.500"
  {
    SmallFields();
    assert Decompose(3600.0) == Clock(1, 0, 0, 0);
    assert Decompose(3661.5) == Clock(1, 1, 1, 500);
  }

  /** The hours are not capped at two digits: 360000.0 seconds print as `100:00:00.000`. */
  lemma FormatTimeHundredHours()
    ensures FormatTime(360000.0) == "100:00:00.000"
  {
    SmallFields();
    assert Decompose(360000.0) == Clock(100, 0, 0, 0);
    assert Render(Clock(100, 0, 0, 0)) == "100" + ":" + "00" + ":" + "00" + "." + "000";
  }
}
