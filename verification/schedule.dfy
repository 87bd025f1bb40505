/**
  The schedule gate of handle_commands: a trailing `HH:MM` token, optionally
  preceded by a `DD-MM` token, defers a command until that moment of the
  current year. The two formats are checked as `datetime.strptime` does with
  '%H:%M' and '%d-%m'; `now` is a parameter.
*/
module Schedule {
  import opened Wrappers
  import opened Tokens

  /**
    A moment within the current year. The year is left out because the
    scheduled moment always takes the year of `now`.
  */
  datatype Timestamp = Timestamp(month: nat, day: nat, hour: nat, minute: nat, second: nat, microsecond: nat)

  datatype ClockTime = ClockTime(hour: nat, minute: nat)

  datatype DayMonth = DayMonth(day: nat, month: nat)

  /** Position of the first occurrence of `c` in `s`. */
  function IndexOf(s: string, c: char): (r: Option<nat>)
    ensures r.Some? ==> r.value < |s| && s[r.value] == c && c !in s[..r.value]
    ensures r.None? ==> c !in s
  {
    if s == [] then None
    else if s[0] == c then Some(0)
    else
      var r := IndexOf(s[1..], c);
      if r.Some? then
        assert s[..r.value + 1] == [s[0]] + s[1..][..r.value];
        Some(r.value + 1)
      else
        assert s == [s[0]] + s[1..];
        None
  }

  /**
    One numeric strptime field: one or two ASCII digits whose value lies in
    [lo, hi]. On a whitespace-free token, the patterns strptime uses for %H,
    %M, %d and %m accept exactly such strings for their own ranges.
  */
  function ParseField(s: string, lo: nat, hi: nat): (r: Option<nat>)
    ensures r.Some? ==> lo <= r.value <= hi
  {
    if 1 <= |s| <= 2 && IsDigits(s) && lo <= DigitsValue(s) <= hi then Some(DigitsValue(s)) else None
  }

  /** `strptime(tok, '%H:%M')`: hour 0 to 23 and minute 0 to 59, each written with one or two digits. */
  function ParseTime(tok: string): (r: Option<ClockTime>)
    ensures r.Some? ==> r.value.hour <= 23 && r.value.minute <= 59
  {
    match IndexOf(tok, ':')
    case None => None
    case Some(k) =>
      var h := ParseField(tok[..k], 0, 23);
      var m := ParseField(tok[k + 1..], 0, 59);
      if h.Some? && m.Some? then Some(ClockTime(h.value, m.value)) else None
  }

  /** Days of each month in 1900, the year strptime validates a '%d-%m' date against (not a leap year). */
  function DaysIn1900(month: nat): nat
    requires 1 <= month <= 12
  {
    if month == 2 then 28
    else if month == 4 || month == 6 || month == 9 || month == 11 then 30
    else 31
  }

  /** `strptime(tok, '%d-%m')`: a day that exists in that month of 1900. */
  function ParseDate(tok: string): (r: Option<DayMonth>)
    ensures r.Some? ==> 1 <= r.value.month <= 12 && 1 <= r.value.day <= DaysIn1900(r.value.month)
  {
    match IndexOf(tok, '-')
    case None => None
    case Some(k) =>
      var d := ParseField(tok[..k], 1, 31);
      var m := ParseField(tok[k + 1..], 1, 12);
      if d.Some? && m.Some? && d.value <= DaysIn1900(m.value) then Some(DayMonth(d.value, m.value)) else None
  }

  /** The texts a numeric strptime field accepts for the value n: two digits, or one digit when n < 10. */
  function Renderings(n: nat): (texts: set<string>)
    requires n < 100
    ensures forall s :: s in texts ==> IsDigits(s)
  {
    {TwoDigits(n)} + (if n < 10 then {[DigitChar(n)]} else {})
  }

  /** A one-digit string is worth its digit. */
  lemma OneDigit(c: char)
    requires IsDigit(c)
    ensures DigitsValue([c]) == DigitValue(c)
  {
    assert [c][..0] == [];
  }

  /** A two-digit string is worth ten times its first digit plus its second. */
  lemma TwoDigitValue(s: string)
    requires |s| == 2 && IsDigits(s)
    ensures DigitsValue(s) == 10 * DigitValue(s[0]) + DigitValue(s[1])
  {
    assert s[..1] == [s[0]];
    OneDigit(s[0]);
  }

  /** A field is accepted with value n exactly when n is in range and the field is one of n's renderings. */
  lemma ParseFieldExactly(s: string, lo: nat, hi: nat, n: nat)
    requires hi < 100
    ensures ParseField(s, lo, hi) == Some(n) <==> lo <= n <= hi && s in Renderings(n)
  {
    if ParseField(s, lo, hi) == Some(n) {
      if |s| == 1 {
        OneDigit(s[0]);
        assert s == [DigitChar(n)];
      } else {
        TwoDigitValue(s);
        var a, b := DigitValue(s[0]), DigitValue(s[1]);
        assert n == 10 * a + b && b < 10;
        assert n / 10 == a && n % 10 == b;
        assert s == [DigitChar(a), DigitChar(b)];
      }
    }
    if lo <= n <= hi && s in Renderings(n) {
      if n < 10 && s == [DigitChar(n)] {
        OneDigit(DigitChar(n));
      }
    }
  }

  /** The character `c` first occurs right after `a` when `a` does not hold it. */
  lemma IndexOfAfter(a: string, c: char, b: string)
    requires c !in a
    ensures IndexOf(a + [c] + b, c) == Some(|a|)
  {
    var s := a + [c] + b;
    assert s[|a|] == c;
    assert s[..|a|] == a;
  }

  /** An accepted time token is a rendering of its hour, a ':', and a rendering of its minute. */
  lemma ParseTimeRendered(tok: string)
    requires ParseTime(tok).Some?
    ensures var t := ParseTime(tok).value;
      exists h, m :: h in Renderings(t.hour) && m in Renderings(t.minute) && tok == h + ":" + m
  {
    var t := ParseTime(tok).value;
    var k := IndexOf(tok, ':').value;
    var h, m := tok[..k], tok[k + 1..];
    ParseFieldExactly(h, 0, 23, t.hour);
    ParseFieldExactly(m, 0, 59, t.minute);
    assert tok == h + ":" + m;
  }

  /** Every rendering of a valid time of day is accepted as that time. */
  lemma ParseTimeRendering(h: string, m: string, t: ClockTime)
    requires t.hour <= 23 && t.minute <= 59
    requires h in Renderings(t.hour) && m in Renderings(t.minute)
    ensures ParseTime(h + ":" + m) == Some(t)
  {
    var tok := h + ":" + m;
    assert ':' !in h;
    IndexOfAfter(h, ':', m);
    assert tok[..|h|] == h && tok[|h| + 1..] == m;
    ParseFieldExactly(h, 0, 23, t.hour);
    ParseFieldExactly(m, 0, 59, t.minute);
  }

  /**
    `strptime(tok, '%H:%M')` yields t exactly when t is a valid time of day
    and tok is a rendering of its hour, a ':', and a rendering of its minute.
  */
  lemma ParseTimeExactly(tok: string, t: ClockTime)
    ensures ParseTime(tok) == Some(t) <==>
              t.hour <= 23 && t.minute <= 59 &&
              exists h, m :: h in Renderings(t.hour) && m in Renderings(t.minute) && tok == h + ":" + m
  {
    if ParseTime(tok) == Some(t) {
      ParseTimeRendered(tok);
    }
    if t.hour <= 23 && t.minute <= 59 &&
       exists h, m :: h in Renderings(t.hour) && m in Renderings(t.minute) && tok == h + ":" + m {
      var h, m :| h in Renderings(t.hour) && m in Renderings(t.minute) && tok == h + ":" + m;
      ParseTimeRendering(h, m, t);
    }
  }

  /** An accepted date token is a rendering of its day, a '-', and a rendering of its month. */
  lemma ParseDateRendered(tok: string)
    requires ParseDate(tok).Some?
    ensures var d := ParseDate(tok).value;
      exists a, b :: a in Renderings(d.day) && b in Renderings(d.month) && tok == a + "-" + b
  {
    var d := ParseDate(tok).value;
    var k := IndexOf(tok, '-').value;
    var a, b := tok[..k], tok[k + 1..];
    ParseFieldExactly(a, 1, 31, d.day);
    ParseFieldExactly(b, 1, 12, d.month);
    assert tok == a + "-" + b;
  }

  /** Every rendering of a day of 1900 is accepted as that day. */
  lemma ParseDateRendering(a: string, b: string, d: DayMonth)
    requires 1 <= d.month <= 12 && 1 <= d.day <= DaysIn1900(d.month)
    requires a in Renderings(d.day) && b in Renderings(d.month)
    ensures ParseDate(a + "-" + b) == Some(d)
  {
    var tok := a + "-" + b;
    assert '-' !in a;
    IndexOfAfter(a, '-', b);
    assert tok[..|a|] == a && tok[|a| + 1..] == b;
    ParseFieldExactly(a, 1, 31, d.day);
    ParseFieldExactly(b, 1, 12, d.month);
  }

  /**
    `strptime(tok, '%d-%m')` yields d exactly when d is a day of 1900 and
    tok is a rendering of the day, a '-', and a rendering of the month.
  */
  lemma ParseDateExactly(tok: string, d: DayMonth)
    ensures ParseDate(tok) == Some(d) <==>
              1 <= d.month <= 12 && 1 <= d.day <= DaysIn1900(d.month) &&
              exists a, b :: a in Renderings(d.day) && b in Renderings(d.month) && tok == a + "-" + b
  {
    if ParseDate(tok) == Some(d) {
      ParseDateRendered(tok);
    }
    if 1 <= d.month <= 12 && 1 <= d.day <= DaysIn1900(d.month) &&
       exists a, b :: a in Renderings(d.day) && b in Renderings(d.month) && tok == a + "-" + b {
      var a, b :| a in Renderings(d.day) && b in Renderings(d.month) && tok == a + "-" + b;
      ParseDateRendering(a, b, d);
    }
  }

  /** The text `HH:MM` with two digits each. */
  function FormatTime(t: ClockTime): string
    requires t.hour <= 23 && t.minute <= 59
  {
    TwoDigits(t.hour) + ":" + TwoDigits(t.minute)
  }

  /** The text `DD-MM` with two digits each. */
  function FormatDate(d: DayMonth): string
    requires 1 <= d.day <= 31 && 1 <= d.month <= 12
  {
    TwoDigits(d.day) + "-" + TwoDigits(d.month)
  }

  /** Every clock time written as `HH:MM` is read back unchanged. */
  lemma ParseFormatTime(t: ClockTime)
    requires t.hour <= 23 && t.minute <= 59
    ensures ParseTime(FormatTime(t)) == Some(t)
  {
    var s := FormatTime(t);
    assert ':' !in TwoDigits(t.hour);
    assert s[..2] == TwoDigits(t.hour);
    assert IndexOf(s, ':') == Some(2);
    assert s[3..] == TwoDigits(t.minute);
  }

  /** Every date of 1900 written as `DD-MM` is read back unchanged. */
  lemma ParseFormatDate(d: DayMonth)
    requires 1 <= d.month <= 12 && 1 <= d.day <= DaysIn1900(d.month)
    ensures ParseDate(FormatDate(d)) == Some(d)
  {
    var s := FormatDate(d);
    assert '-' !in TwoDigits(d.day);
    assert s[..2] == TwoDigits(d.day);
    assert IndexOf(s, '-') == Some(2);
    assert s[3..] == TwoDigits(d.month);
  }

  /** strptime accepts one-digit hour and minute fields. */
  lemma ParseTimeShort()
    ensures ParseTime("9:5") == Some(ClockTime(9, 5))
  {
    assert "9" == [DigitChar(9)] && "5" == [DigitChar(5)];
    assert "9:5" == "9" + ":" + "5";
    ParseTimeRendering("9", "5", ClockTime(9, 5));
  }

  /** strptime rejects an hour of 24. */
  lemma ParseTimeHourRange()
    ensures ParseTime("24:00") == None
  {
    assert IndexOf("24:00", ':') == Some(2);
    assert "24:00"[..2] == "24" && "24" == TwoDigits(24);
  }

  /** strptime rejects a minute of 60 and a missing minute. */
  lemma ParseTimeMinuteRange()
    ensures ParseTime("12:60") == None
    ensures ParseTime("12:") == None
  {
    assert IndexOf("12:60", ':') == Some(2);
    assert "12:60"[3..] == "60" && "60" == TwoDigits(60);
    assert IndexOf("12:", ':') == Some(2);
    assert "12:"[3..] == "";
  }

  /** The 29th of February does not exist in 1900, so strptime rejects it. */
  lemma ParseDateLeapDay()
    ensures ParseDate("29-02") == None
  {
    assert IndexOf("29-02", '-') == Some(2);
    assert "29-02"[..2] == "29" && "29" == TwoDigits(29);
    assert "29-02"[3..] == "02" && "02" == TwoDigits(2);
  }

  /** A day past the end of its month is rejected. */
  lemma ParseDateMonthEnd()
    ensures ParseDate("31-04") == None
  {
    assert IndexOf("31-04", '-') == Some(2);
    assert "31-04"[..2] == "31" && "31" == TwoDigits(31);
    assert "31-04"[3..] == "04" && "04" == TwoDigits(4);
  }

  /** One-digit day and month fields parse. */
  lemma ParseDateShort()
    ensures ParseDate("1-3") == Some(DayMonth(1, 3))
  {
    assert "1" == [DigitChar(1)] && "3" == [DigitChar(3)];
    assert "1-3" == "1" + "-" + "3";
    ParseDateRendering("1", "3", DayMonth(1, 3));
  }

  /** `a > b` between datetimes of the same year: lexicographic on the fields. Nothing is later than itself. */
  predicate Later(a: Timestamp, b: Timestamp)
    ensures Later(a, b) ==> a != b
  {
    if a.month != b.month then a.month > b.month
    else if a.day != b.day then a.day > b.day
    else if a.hour != b.hour then a.hour > b.hour
    else if a.minute != b.minute then a.minute > b.minute
    else if a.second != b.second then a.second > b.second
    else a.microsecond > b.microsecond
  }

  /** The scheduled moment: seconds and microseconds are zero. */
  function StartAt(month: nat, day: nat, t: ClockTime): (s: Timestamp) {
    Timestamp(month, day, t.hour, t.minute, 0, 0)
  }

  /**
    Because a scheduled moment has zero seconds, `start > now` is the
    comparison of (month, day, hour, minute) alone.
  */
  lemma LaterIgnoresSeconds(start: Timestamp, now: Timestamp)
    requires start.second == 0 && start.microsecond == 0
    ensures Later(start, now) <==>
              start.month > now.month || (start.month == now.month &&
              (start.day > now.day || (start.day == now.day &&
              (start.hour > now.hour || (start.hour == now.hour && start.minute > now.minute)))))
  {
  }

  /** `start > now` orders the moments of a year strictly and totally. */
  lemma LaterOrder(a: Timestamp, b: Timestamp, c: Timestamp)
    ensures Later(a, b) ==> !Later(b, a)
    ensures a != b ==> Later(a, b) || Later(b, a)
    ensures Later(a, b) && Later(b, c) ==> Later(a, c)
  {
  }

  /** The minute month-day hour:minute comes after the minute `now` is in. */
  predicate AfterMinute(month: nat, day: nat, t: ClockTime, now: Timestamp) {
    month > now.month || (month == now.month &&
    (day > now.day || (day == now.day &&
    (t.hour > now.hour || (t.hour == now.hour && t.minute > now.minute)))))
  }

  /** What the trailing tokens of a command say about when it may run. */
  datatype Schedule = Immediate | StartsAt(start: Timestamp) | Unparseable

  /** The date token position: Python's parts[len(parts) - 2], which is the last token for a one-token command. */
  function BeforeLast(parts: seq<string>): (r: string)
    requires parts != []
    ensures r in parts
    ensures |parts| >= 2 ==> r == parts[|parts| - 2]
    ensures |parts| == 1 ==> r == parts[0]
  {
    if |parts| >= 2 then parts[|parts| - 2] else parts[|parts| - 1]
  }

  /**
    The schedule of a non-empty command: none unless its last token holds a
    ':'; then that token must be a time and, if the token before it holds a
    '-', that token must be a date. Month and day come from the date, or from
    `now` when there is none.
  */
  function ScheduleOf(parts: seq<string>, now: Timestamp): (r: Schedule)
    requires parts != []
    ensures r == Immediate <==> ':' !in parts[|parts| - 1]
    ensures r.StartsAt? ==> r.start.second == 0 && r.start.microsecond == 0 && r.start.hour <= 23 && r.start.minute <= 59
  {
    var last := parts[|parts| - 1];
    if ':' !in last then Immediate
    else
      match ParseTime(last)
      case None => Unparseable
      case Some(t) =>
        if '-' in BeforeLast(parts) then
          match ParseDate(BeforeLast(parts))
          case None => Unparseable
          case Some(d) => StartsAt(StartAt(d.month, d.day, t))
        else StartsAt(StartAt(now.month, now.day, t))
  }

  /** The gate's decision for one command. */
  datatype Verdict =
    | Blank        // no tokens: removed silently
    | BadSchedule  // time or date does not parse: removed with "Error in date or time"
    | NotDue       // scheduled later than now: left in the queue
    | Due          // to be dispatched and removed

  function Gate(parts: seq<string>, now: Timestamp): (r: Verdict)
    ensures r == Blank <==> parts == []
    ensures r == NotDue || r == BadSchedule ==> ':' in parts[|parts| - 1]
  {
    if parts == [] then Blank
    else
      match ScheduleOf(parts, now)
      case Immediate => Due
      case Unparseable => BadSchedule
      case StartsAt(start) => if Later(start, now) then NotDue else Due
  }

  /** Gate and ScheduleOf unfolded into one condition. */
  lemma GateNotDue(parts: seq<string>, now: Timestamp)
    ensures Gate(parts, now) == NotDue <==>
              parts != [] && ':' in parts[|parts| - 1] &&
              var t := ParseTime(parts[|parts| - 1]);
              var d := ParseDate(BeforeLast(parts));
              t.Some? &&
              (if '-' in BeforeLast(parts) then d.Some? && Later(StartAt(d.value.month, d.value.day, t.value), now)
               else Later(StartAt(now.month, now.day, t.value), now))
    ensures parts != [] && ':' !in parts[|parts| - 1] ==> Gate(parts, now) == Due
  {
  }

  /** Two digit fields around a separator that is not whitespace make one token. */
  lemma DigitsAroundToken(a: string, c: char, b: string)
    requires IsDigits(a) && IsDigits(b) && !IsSpace(c)
    ensures IsToken(a + [c] + b)
  {
    var s := a + [c] + b;
    forall i | 0 <= i < |s| ensures !IsSpace(s[i]) {
      if i < |a| {
        assert s[i] == a[i];
      } else if i > |a| {
        assert s[i] == b[i - |a| - 1];
      }
    }
  }

  /**
    An accepted time token is a single token holding a ':' and no '-'; an
    accepted date token is a single token holding a '-'.
  */
  lemma AcceptedTokens(timeTok: string, dateTok: string)
    ensures ParseTime(timeTok).Some? ==> IsToken(timeTok) && ':' in timeTok && '-' !in timeTok
    ensures ParseDate(dateTok).Some? ==> IsToken(dateTok) && '-' in dateTok
  {
    if ParseTime(timeTok).Some? {
      var k := IndexOf(timeTok, ':').value;
      assert IsDigits(timeTok[..k]) && IsDigits(timeTok[k + 1..]);
      assert timeTok == timeTok[..k] + [':'] + timeTok[k + 1..];
      DigitsAroundToken(timeTok[..k], ':', timeTok[k + 1..]);
    }
    if ParseDate(dateTok).Some? {
      var k := IndexOf(dateTok, '-').value;
      assert IsDigits(dateTok[..k]) && IsDigits(dateTok[k + 1..]);
      assert dateTok == dateTok[..k] + ['-'] + dateTok[k + 1..];
      DigitsAroundToken(dateTok[..k], '-', dateTok[k + 1..]);
    }
  }

  /**
    A command ending in a date and a time is held back exactly when that
    day and minute of this year come after the minute `now` is in; otherwise
    it is due.
  */
  lemma GateDated(words: seq<string>, dateTok: string, timeTok: string, d: DayMonth, t: ClockTime, now: Timestamp)
    requires ParseDate(dateTok) == Some(d) && ParseTime(timeTok) == Some(t)
    ensures Gate(words + [dateTok, timeTok], now) == if AfterMinute(d.month, d.day, t, now) then NotDue else Due
  {
    var parts := words + [dateTok, timeTok];
    AcceptedTokens(timeTok, dateTok);
    assert parts[|parts| - 1] == timeTok && BeforeLast(parts) == dateTok;
    assert ScheduleOf(parts, now) == StartsAt(StartAt(d.month, d.day, t));
    LaterIgnoresSeconds(StartAt(d.month, d.day, t), now);
  }

  /**
    A command ending in a time but no date (the token before holds no '-')
    is held back exactly when that minute of today is still to come.
  */
  lemma GateUndated(words: seq<string>, timeTok: string, t: ClockTime, now: Timestamp)
    requires ParseTime(timeTok) == Some(t)
    requires words != [] ==> '-' !in words[|words| - 1]
    ensures Gate(words + [timeTok], now) ==
              if t.hour > now.hour || (t.hour == now.hour && t.minute > now.minute) then NotDue else Due
  {
    var parts := words + [timeTok];
    AcceptedTokens(timeTok, "");
    assert parts[|parts| - 1] == timeTok;
    assert '-' !in BeforeLast(parts);
    assert ScheduleOf(parts, now) == StartsAt(StartAt(now.month, now.day, t));
    LaterIgnoresSeconds(StartAt(now.month, now.day, t), now);
  }

  /** A command whose last token holds a ':' but is no time is removed as malformed. */
  lemma GateBadTime(words: seq<string>, timeTok: string, now: Timestamp)
    requires ':' in timeTok && ParseTime(timeTok) == None
    ensures Gate(words + [timeTok], now) == BadSchedule
  {
    var parts := words + [timeTok];
    assert parts[|parts| - 1] == timeTok;
  }

  /** A valid time preceded by a token with a '-' that is no date is malformed too. */
  lemma GateBadDate(words: seq<string>, dateTok: string, timeTok: string, now: Timestamp)
    requires ParseTime(timeTok).Some? && '-' in dateTok && ParseDate(dateTok) == None
    ensures Gate(words + [dateTok, timeTok], now) == BadSchedule
  {
    var parts := words + [dateTok, timeTok];
    AcceptedTokens(timeTok, dateTok);
    assert parts[|parts| - 1] == timeTok && BeforeLast(parts) == dateTok;
  }

  /** A command whose last token holds no ':' is due at once. */
  lemma GateImmediate(words: seq<string>, last: string, now: Timestamp)
    requires ':' !in last
    ensures Gate(words + [last], now) == Due
  {
    var parts := words + [last];
    assert parts[|parts| - 1] == last;
  }

  /** "09:00" is nine o'clock. */
  lemma ParseTimeNine()
    ensures ParseTime("09:00") == Some(ClockTime(9, 0))
  {
    assert FormatTime(ClockTime(9, 0)) == "09:00";
    ParseFormatTime(ClockTime(9, 0));
  }

  /** "25-12" is Christmas Day. */
  lemma ParseDateChristmas()
    ensures ParseDate("25-12") == Some(DayMonth(25, 12))
  {
    assert FormatDate(DayMonth(25, 12)) == "25-12";
    ParseFormatDate(DayMonth(25, 12));
  }

  /** The deferred example: due from 09:00 on the 25th of December, held back before. */
  lemma GateExample()
    ensures Gate(["heat", "on", "12", "25-12", "09:00"], Timestamp(12, 24, 10, 0, 0, 0)) == NotDue
    ensures Gate(["heat", "on", "12", "25-12", "09:00"], Timestamp(12, 25, 9, 1, 0, 0)) == Due
  {
    ParseTimeNine();
    ParseDateChristmas();
  }
}
