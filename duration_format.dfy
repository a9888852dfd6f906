/** formatTimeSpent and formatTimeSpentDisplay (identical in src/helpers.ts
    and src/helpers.js): a duration in milliseconds rendered as "M:SS",
    "H:MM:SS" or "D day(s) HH:MM:SS". ParseTimeSpent reads such a text back
    and is the partner the rendering is proved against. */
module DurationFormat {
  import opened TodoTypes
  import opened TimeHelpers

  // ---------------------------------------------------------------------
  // Decimal digits: `${n}`, n.toString() and padStart(2, '0')

  predicate IsDigit(c: char) {
    '0' <= c <= '9'
  }

  predicate IsDigits(s: string) {
    forall i :: 0 <= i < |s| ==> IsDigit(s[i])
  }

  function DigitChar(d: nat): (c: char)
    requires d < 10
    ensures IsDigit(c)
  {
    (('0' as int) + d) as char
  }

  /** The decimal text of a non-negative integer, as JavaScript prints it. */
  function NatToString(n: nat): (s: string)
    decreases n
  {
    if n < 10 then [DigitChar(n)] else NatToString(n / 10) + [DigitChar(n % 10)]
  }

  /** The number a string of decimal digits denotes. */
  function DecimalValue(s: string): nat
    requires IsDigits(s)
  {
    if s == [] then 0
    else 10 * DecimalValue(s[..|s| - 1]) + ((s[|s| - 1] as int) - ('0' as int))
  }

  lemma {:induction false} NatToStringReads(n: nat)
    ensures |NatToString(n)| > 0 && IsDigits(NatToString(n))
    ensures DecimalValue(NatToString(n)) == n
    ensures n < 10 ==> |NatToString(n)| == 1
    ensures n >= 10 ==> |NatToString(n)| >= 2
    decreases n
  {
    if n >= 10 {
      NatToStringReads(n / 10);
      var s := NatToString(n);
      assert s[..|s| - 1] == NatToString(n / 10);
    }
  }

  /** s.padStart(2, '0') */
  function PadStart2(s: string): (r: string)
    decreases 2 - |s|
  {
    if |s| >= 2 then s else PadStart2("0" + s)
  }

  /** n.toString().padStart(2, '0') for the clock fields, all below 60. */
  function TwoDigits(n: nat): string {
    PadStart2(NatToString(n))
  }

  lemma TwoDigitsReads(n: nat)
    requires n < 100
    ensures |TwoDigits(n)| == 2 && IsDigits(TwoDigits(n))
    ensures DecimalValue(TwoDigits(n)) == n
  {
    NatToStringReads(n);
    if n < 10 {
      assert NatToString(n) == [DigitChar(n)];
      assert PadStart2(NatToString(n)) == PadStart2("0" + [DigitChar(n)]);
      assert TwoDigits(n) == ['0', DigitChar(n)];
      assert TwoDigits(n)[..1] == ['0'];
      assert ['0'][..0] == [];
    } else {
      NatToStringReads(n / 10);
      assert NatToString(n / 10) == [DigitChar(n / 10)];
      assert |NatToString(n)| == 2;
    }
  }

  // ---------------------------------------------------------------------
  // Splitting a text at a separator (the reading side)

  /** The pieces of `s` between occurrences of `sep`, like s.split(sep). */
  function SplitOn(s: string, sep: char): (pieces: seq<string>)
    ensures |pieces| > 0
    decreases |s|
  {
    if s == [] then [[]]
    else
      var rest := SplitOn(s[1..], sep);
      if s[0] == sep then [[]] + rest else [[s[0]] + rest[0]] + rest[1..]
  }

  lemma {:induction false} SplitOnWhole(a: string, sep: char)
    requires sep !in a
    ensures SplitOn(a, sep) == [a]
    decreases |a|
  {
    if a != [] {
      assert sep !in a[1..] by {
        forall i | 0 <= i < |a[1..]|
          ensures a[1..][i] != sep
        {
          assert a[1..][i] == a[i + 1];
        }
      }
      SplitOnWhole(a[1..], sep);
      assert [a[0]] + a[1..] == a;
    }
  }

  lemma {:induction false} SplitOnJoin(a: string, sep: char, b: string)
    requires sep !in a
    ensures SplitOn(a + [sep] + b, sep) == [a] + SplitOn(b, sep)
    decreases |a|
  {
    var s := a + [sep] + b;
    if a == [] {
      assert s[1..] == b;
    } else {
      assert s[1..] == a[1..] + [sep] + b;
      assert sep !in a[1..] by {
        forall i | 0 <= i < |a[1..]|
          ensures a[1..][i] != sep
        {
          assert a[1..][i] == a[i + 1];
        }
      }
      SplitOnJoin(a[1..], sep, b);
      assert [a[0]] + a[1..] == a;
    }
  }

  /** Three fields of digits joined by `sep` split back into the three. */
  lemma SplitThree(x: string, y: string, z: string, sep: char)
    requires sep !in x && sep !in y && sep !in z
    ensures SplitOn(x + [sep] + y + [sep] + z, sep) == [x, y, z]
  {
    assert x + [sep] + y + [sep] + z == x + [sep] + (y + [sep] + z);
    SplitOnWhole(z, sep);
    SplitOnJoin(y, sep, z);
    SplitOnJoin(x, sep, y + [sep] + z);
  }

  lemma SplitTwo(x: string, y: string, sep: char)
    requires sep !in x && sep !in y
    ensures SplitOn(x + [sep] + y, sep) == [x, y]
  {
    SplitOnWhole(y, sep);
    SplitOnJoin(x, sep, y);
  }

  lemma DigitsHaveNo(s: string, c: char)
    requires IsDigits(s) && !IsDigit(c)
    ensures c !in s
  {
  }

  // ---------------------------------------------------------------------
  // formatTimeSpent

  /** A whole number of seconds broken into days, hours, minutes, seconds. */
  datatype Breakdown = Breakdown(days: nat, hours: nat, minutes: nat, seconds: nat)

  /** The seconds a clock of hours, minutes and seconds stands for. */
  function ClockSeconds(hours: nat, minutes: nat, seconds: nat): nat {
    hours * 3600 + minutes * 60 + seconds
  }

  /** The seconds a breakdown stands for. */
  function TotalSeconds(b: Breakdown): nat {
    b.days * 86400 + ClockSeconds(b.hours, b.minutes, b.seconds)
  }

  /** days = floor(t / 86400), hours = floor((t % 86400) / 3600),
      minutes = floor((t % 3600) / 60), seconds = t % 60. */
  function BreakDown(totalSeconds: nat): (b: Breakdown)
    ensures b.hours < 24 && b.minutes < 60 && b.seconds < 60
    ensures TotalSeconds(b) == totalSeconds
  {
    var days := totalSeconds / 86400;
    var hours := (totalSeconds % 86400) / 3600;
    var minutes := (totalSeconds % 3600) / 60;
    var seconds := totalSeconds % 60;
    assert totalSeconds % 3600 == (totalSeconds % 86400) % 3600;
    Breakdown(days, hours, minutes, seconds)
  }

  /** The seconds formatTimeSpent displays: negative durations clamp to 0,
      then Math.round(ms / 1000). */
  function DisplayedSeconds(ms: int): nat {
    RoundToSeconds(if ms < 0 then 0 else ms)
  }

  function DayWord(days: nat): string {
    if days == 1 then "day" else "days"
  }

  /** The day part: "<d> day " or "<d> days " when there are days. */
  function DayPart(b: Breakdown): string {
    if b.days > 0 then NatToString(b.days) + " " + DayWord(b.days) + " " else ""
  }

  /** The time part: HH:MM:SS after days, else H:MM:SS, else M:SS. */
  function TimePart(b: Breakdown): string {
    if b.days > 0 then TwoDigits(b.hours) + ":" + TwoDigits(b.minutes) + ":" + TwoDigits(b.seconds)
    else if b.hours > 0 then NatToString(b.hours) + ":" + TwoDigits(b.minutes) + ":" + TwoDigits(b.seconds)
    else NatToString(b.minutes) + ":" + TwoDigits(b.seconds)
  }

  /** formatTimeSpent(ms) */
  function FormatTimeSpent(ms: int): string {
    var b := BreakDown(DisplayedSeconds(ms));
    DayPart(b) + TimePart(b)
  }

  /** formatTimeSpentDisplay(start, end): the rounded end minus the rounded
      start, formatted. */
  function FormatTimeSpentDisplay(startTimestamp: int, endTimestamp: int): string {
    FormatTimeSpent(RoundMs(endTimestamp) - RoundMs(startTimestamp))
  }

  /** formatTimeSpent as src/helpers.ts writes it: `ms` clamped in place,
      the fields computed, then `dayPart` and `timePart` assigned branch by
      branch. It renders exactly what the expression form does. */
  method FormatTimeSpentSteps(duration: int) returns (text: string)
    ensures text == FormatTimeSpent(duration)
  {
    var ms := duration;
    if ms < 0 {
      ms := 0;
    }
    var totalSeconds: nat := RoundToSeconds(ms);
    var days := totalSeconds / 86400;
    var hours := (totalSeconds % 86400) / 3600;
    var minutes := (totalSeconds % 3600) / 60;
    var seconds := totalSeconds % 60;
    ghost var b := Breakdown(days, hours, minutes, seconds);
    assert b == BreakDown(DisplayedSeconds(duration)) by {
      assert totalSeconds == DisplayedSeconds(duration);
    }

    var dayPart := "";
    if days > 0 {
      dayPart := NatToString(days) + " " + (if days == 1 then "day" else "days") + " ";
    }
    assert dayPart == DayPart(b);

    var timePart := "";
    if days > 0 {
      timePart := TwoDigits(hours) + ":" + TwoDigits(minutes) + ":" + TwoDigits(seconds);
    } else if hours > 0 {
      timePart := NatToString(hours) + ":" + TwoDigits(minutes) + ":" + TwoDigits(seconds);
    } else {
      timePart := NatToString(minutes) + ":" + TwoDigits(seconds);
    }
    assert timePart == TimePart(b);

    text := dayPart + timePart;
  }

  /** A field of digits with its value. */
  predicate Reads(field: string, value: nat) {
    IsDigits(field) && |field| > 0 && DecimalValue(field) == value
  }

  /** The fields the time part splits into at ':'. */
  lemma TimeFields(b: Breakdown)
    requires b.hours < 24 && b.minutes < 60 && b.seconds < 60
    ensures SplitOn(TimePart(b), ':')
         == if b.days > 0 then [TwoDigits(b.hours), TwoDigits(b.minutes), TwoDigits(b.seconds)]
            else if b.hours > 0 then [NatToString(b.hours), TwoDigits(b.minutes), TwoDigits(b.seconds)]
            else [NatToString(b.minutes), TwoDigits(b.seconds)]
    ensures ' ' !in TimePart(b)
  {
    TwoDigitsReads(b.hours);
    TwoDigitsReads(b.minutes);
    TwoDigitsReads(b.seconds);
    NatToStringReads(b.hours);
    NatToStringReads(b.minutes);
    var hh, mm, ss := TwoDigits(b.hours), TwoDigits(b.minutes), TwoDigits(b.seconds);
    var h, m := NatToString(b.hours), NatToString(b.minutes);
    DigitsHaveNo(hh, ':');
    DigitsHaveNo(mm, ':');
    DigitsHaveNo(ss, ':');
    DigitsHaveNo(h, ':');
    DigitsHaveNo(m, ':');
    DigitsHaveNo(hh, ' ');
    DigitsHaveNo(mm, ' ');
    DigitsHaveNo(ss, ' ');
    DigitsHaveNo(h, ' ');
    DigitsHaveNo(m, ' ');
    if b.days > 0 {
      SplitThree(hh, mm, ss, ':');
    } else if b.hours > 0 {
      SplitThree(h, mm, ss, ':');
    } else {
      SplitTwo(m, ss, ':');
    }
  }

  /** The words a rendering splits into at ' '. */
  lemma RenderedWords(b: Breakdown)
    requires b.hours < 24 && b.minutes < 60 && b.seconds < 60
    ensures SplitOn(DayPart(b) + TimePart(b), ' ')
         == if b.days > 0 then [NatToString(b.days), DayWord(b.days), TimePart(b)] else [TimePart(b)]
  {
    TimeFields(b);
    if b.days > 0 {
      var d := NatToString(b.days);
      NatToStringReads(b.days);
      DigitsHaveNo(d, ' ');
      assert DayPart(b) + TimePart(b) == d + [' '] + DayWord(b.days) + [' '] + TimePart(b);
      SplitThree(d, DayWord(b.days), TimePart(b), ' ');
    } else {
      assert DayPart(b) + TimePart(b) == TimePart(b);
      SplitOnWhole(TimePart(b), ' ');
    }
  }

  /** formatTimeSpent(ms) is the rendering of the breakdown of the rounded,
      clamped duration: the breakdown's fields are within a day, an hour and
      a minute and recombine to that duration; the text splits at ' ' into
      the day count, "day" exactly when there is one day or else "days", and
      the clock, or into the clock alone when there are no days; the clock
      splits at ':' into three fields when there are days or hours (all of
      them two digits after a day count, all but the hours otherwise) and
      into minutes and two-digit seconds when there are neither. */
  lemma FormatTimeSpentShape(ms: int)
    ensures (
      var b := BreakDown(DisplayedSeconds(ms));
      && FormatTimeSpent(ms) == DayPart(b) + TimePart(b)
      && TotalSeconds(b) == DisplayedSeconds(ms)
      && b.hours < 24 && b.minutes < 60 && b.seconds < 60
      && SplitOn(FormatTimeSpent(ms), ' ')
         == (if b.days > 0 then [NatToString(b.days), DayWord(b.days), TimePart(b)] else [TimePart(b)])
      && SplitOn(TimePart(b), ':')
         == (if b.days > 0 then [TwoDigits(b.hours), TwoDigits(b.minutes), TwoDigits(b.seconds)]
             else if b.hours > 0 then [NatToString(b.hours), TwoDigits(b.minutes), TwoDigits(b.seconds)]
             else [NatToString(b.minutes), TwoDigits(b.seconds)]))
  {
    var b := BreakDown(DisplayedSeconds(ms));
    RenderedWords(b);
    TimeFields(b);
  }

  /** Reads a formatTimeSpent text back into whole seconds. */
  function ParseTimeSpent(text: string): Option<nat> {
    ParseWords(SplitOn(text, ' '))
  }

  function ParseWords(words: seq<string>): Option<nat> {
    if |words| == 3 && (words[1] == "day" || words[1] == "days") && IsDigits(words[0]) && |words[0]| > 0 then
      match ParseClock(words[2])
      case Some(t) => Some(DecimalValue(words[0]) * 86400 + t)
      case None => None
    else if |words| == 1 then ParseClock(words[0])
    else None
  }

  function ParseClock(text: string): Option<nat> {
    ParseFields(SplitOn(text, ':'))
  }

  function ParseFields(f: seq<string>): Option<nat> {
    if |f| == 3 && IsDigits(f[0]) && IsDigits(f[1]) && IsDigits(f[2]) then
      Some(ClockSeconds(DecimalValue(f[0]), DecimalValue(f[1]), DecimalValue(f[2])))
    else if |f| == 2 && IsDigits(f[0]) && IsDigits(f[1]) then
      Some(ClockSeconds(0, DecimalValue(f[0]), DecimalValue(f[1])))
    else None
  }

  lemma ParseDayWords(words: seq<string>, days: nat, clock: nat)
    requires |words| == 3 && Reads(words[0], days) && (words[1] == "day" || words[1] == "days")
    requires ParseClock(words[2]) == Some(clock)
    ensures ParseWords(words) == Some(days * 86400 + clock)
  {
  }

  lemma ParseClockWords(words: seq<string>, clock: nat)
    requires |words| == 1 && ParseClock(words[0]) == Some(clock)
    ensures ParseWords(words) == Some(clock)
  {
  }

  lemma ParseThreeFields(x: string, y: string, z: string, h: nat, m: nat, s: nat)
    requires Reads(x, h) && Reads(y, m) && Reads(z, s)
    ensures ParseFields([x, y, z]) == Some(ClockSeconds(h, m, s))
  {
  }

  lemma ParseTwoFields(y: string, z: string, m: nat, s: nat)
    requires Reads(y, m) && Reads(z, s)
    ensures ParseFields([y, z]) == Some(ClockSeconds(0, m, s))
  {
  }

  /** The clock text of a breakdown reads back as its clock seconds. */
  lemma ParseTimePart(b: Breakdown)
    requires b.hours < 24 && b.minutes < 60 && b.seconds < 60
    ensures ParseClock(TimePart(b)) == Some(ClockSeconds(b.hours, b.minutes, b.seconds))
  {
    TimeFields(b);
    TwoDigitsReads(b.minutes);
    TwoDigitsReads(b.seconds);
    if b.days > 0 {
      TwoDigitsReads(b.hours);
      ParseThreeFields(TwoDigits(b.hours), TwoDigits(b.minutes), TwoDigits(b.seconds), b.hours, b.minutes, b.seconds);
    } else if b.hours > 0 {
      NatToStringReads(b.hours);
      ParseThreeFields(NatToString(b.hours), TwoDigits(b.minutes), TwoDigits(b.seconds), b.hours, b.minutes, b.seconds);
    } else {
      NatToStringReads(b.minutes);
      ParseTwoFields(NatToString(b.minutes), TwoDigits(b.seconds), b.minutes, b.seconds);
    }
  }

  lemma ParseRendered(b: Breakdown)
    requires b.hours < 24 && b.minutes < 60 && b.seconds < 60
    ensures ParseTimeSpent(DayPart(b) + TimePart(b)) == Some(TotalSeconds(b))
  {
    if b.days > 0 {
      ParseRenderedDays(b);
    } else {
      ParseRenderedClock(b);
    }
  }

  lemma ParseJoinedDays(text: string, d: string, w: string, t: string, days: nat, clock: nat, total: nat)
    requires text == d + " " + w + " " + t
    requires Reads(d, days) && ' ' !in d && ' ' !in t
    requires w == "day" || w == "days"
    requires ParseClock(t) == Some(clock)
    requires total == days * 86400 + clock
    ensures ParseTimeSpent(text) == Some(total)
  {
    SplitThree(d, w, t, ' ');
    ParseDayWords(SplitOn(d + [' '] + w + [' '] + t, ' '), days, clock);
  }

  lemma ParseRenderedDays(b: Breakdown)
    requires b.days > 0 && b.hours < 24 && b.minutes < 60 && b.seconds < 60
    ensures ParseTimeSpent(DayPart(b) + TimePart(b)) == Some(TotalSeconds(b))
  {
    TimeFields(b);
    ParseTimePart(b);
    NatToStringReads(b.days);
    DigitsHaveNo(NatToString(b.days), ' ');
    var d, w, t := NatToString(b.days), DayWord(b.days), TimePart(b);
    ParseJoinedDays(DayPart(b) + t, d, w, t, b.days, ClockSeconds(b.hours, b.minutes, b.seconds), TotalSeconds(b));
  }

  lemma ParseRenderedClock(b: Breakdown)
    requires b.days == 0 && b.hours < 24 && b.minutes < 60 && b.seconds < 60
    ensures ParseTimeSpent(DayPart(b) + TimePart(b)) == Some(TotalSeconds(b))
  {
    RenderedWords(b);
    ParseTimePart(b);
    var words := SplitOn(DayPart(b) + TimePart(b), ' ');
    ParseClockWords(words, ClockSeconds(b.hours, b.minutes, b.seconds));
  }

  /** Nothing is lost in the rendering but the rounding: reading the text of
      formatTimeSpent(ms) back gives the whole seconds it was rounded to. */
  lemma FormatTimeSpentRoundTrip(ms: int)
    ensures ParseTimeSpent(FormatTimeSpent(ms)) == Some(DisplayedSeconds(ms))
  {
    ParseRendered(BreakDown(DisplayedSeconds(ms)));
  }

  /** Two durations are shown alike exactly when they round to the same
      number of whole seconds. */
  lemma FormatTimeSpentInjective(ms1: int, ms2: int)
    ensures FormatTimeSpent(ms1) == FormatTimeSpent(ms2) <==> DisplayedSeconds(ms1) == DisplayedSeconds(ms2)
  {
    FormatTimeSpentRoundTrip(ms1);
    FormatTimeSpentRoundTrip(ms2);
  }

  /** A breakdown of less than a minute has only seconds. */
  lemma BreakDownBelowMinute(t: nat)
    requires t < 60
    ensures BreakDown(t) == Breakdown(0, 0, 0, t)
  {
  }

  /** The rendering of a breakdown of less than a minute. */
  lemma RenderedBelowMinute(t: nat)
    requires t < 60
    ensures DayPart(Breakdown(0, 0, 0, t)) + TimePart(Breakdown(0, 0, 0, t)) == "0:" + TwoDigits(t)
  {
    var b := Breakdown(0, 0, 0, t);
    assert NatToString(b.minutes) == "0";
    assert TimePart(b) == "0" + ":" + TwoDigits(t);
  }

  /** A duration that rounds to less than a minute is shown as "0:SS". */
  lemma BelowMinuteShowsSeconds(ms: int)
    requires ms < 59500
    ensures DisplayedSeconds(ms) < 60
    ensures FormatTimeSpent(ms) == "0:" + TwoDigits(DisplayedSeconds(ms))
  {
    var t := DisplayedSeconds(ms);
    BreakDownBelowMinute(t);
    RenderedBelowMinute(t);
  }

  /** A duration of less than half a second, and in particular every
      negative one, is shown as "0:00". */
  lemma BelowHalfSecondShowsZero(ms: int)
    requires ms < 500
    ensures FormatTimeSpent(ms) == "0:00"
  {
    BelowMinuteShowsSeconds(ms);
    assert DisplayedSeconds(ms) == 0;
    assert TwoDigits(0) == "00" by {
      assert NatToString(0) == [DigitChar(0)];
    }
  }

  /** An interval that ends no later than it starts is shown as "0:00". */
  lemma DisplayOfEmptyInterval(startTimestamp: int, endTimestamp: int)
    requires endTimestamp <= startTimestamp
    ensures FormatTimeSpentDisplay(startTimestamp, endTimestamp) == "0:00"
  {
    RoundMsMonotone(endTimestamp, startTimestamp);
    BelowHalfSecondShowsZero(RoundMs(endTimestamp) - RoundMs(startTimestamp));
  }
}
