/**
 * The display helpers of src/utils/index.ts: the 12-hour clock text, the
 * "Nh Mm" duration text and the most-recent-first ordering of entries.
 */
module Utils {
  import opened Types
  import opened Seqs
  import opened Text

  // ---------------------------------------------------------------------------
  // formatTime

  /** Clock text whose hour part (the text before its first ':') is a non-empty run of digits. */
  predicate IsClockText(t: string) {
    ':' in t && |UpTo(t, ':')| > 0 && AllDigits(UpTo(t, ':'))
  }

  /** The hour a clock text names (`parseInt` of the part before ':'). */
  function HourOf(t: string): nat {
    DecimalValue(UpTo(t, ':'))
  }

  /** The minutes part of a clock text: what follows the first ':' up to the next one. */
  function MinutesText(t: string): string
    requires ':' in t
  {
    UpTo(AfterFirst(t, ':'), ':')
  }

  /** The hour shown on the 12-hour clock: `hour % 12 || 12`. */
  function DisplayHour(hour: nat): (d: nat)
    ensures 1 <= d <= 12 && d % 12 == hour % 12
    ensures hour == 0 ==> d == 12
    ensures hour == 12 ==> d == 12
    ensures 13 <= hour <= 23 ==> d == hour - 12
    ensures 1 <= hour <= 11 ==> d == hour
  {
    if hour % 12 == 0 then 12 else hour % 12
  }

  /**
   * `parseInt(hours, 10)` of the text before the first ':': the value of its
   * leading digits, or NaN (`None`) when it starts with no digit.
   */
  function ParsedHour(t: string): (h: Option<nat>)
    ensures h.None? <==> LeadingDigits(UpTo(t, ':')) == []
  {
    var digits := LeadingDigits(UpTo(t, ':'));
    if digits == [] then None else Some(DecimalValue(digits))
  }

  /** `time.split(':')[1]` as the template literal prints it: "undefined" when there is no ':'. */
  function MinutesShown(t: string): (m: string)
    ensures ':' !in m
  {
    if ':' in t then MinutesText(t) else "undefined"
  }

  /** The hour shown for a parsed hour: `hour % 12 || 12`, where NaN is falsy and shows as 12. */
  function ShownHour(hour: Option<nat>): (d: nat)
    ensures 1 <= d <= 12
    ensures hour.None? ==> d == 12
  {
    if hour.Some? then DisplayHour(hour.value) else 12
  }

  /** "AM" before noon, "PM" from noon on; NaN compares false and gives "AM". */
  function Meridiem(hour: Option<nat>): (m: string)
    ensures |m| == 3
  {
    if hour.Some? && hour.value >= 12 then " PM" else " AM"
  }

  /** "HH:MM" on the 24-hour clock to "h:MM AM" / "h:MM PM" on the 12-hour clock. */
  function FormatTime(t: string): (r: string)
    ensures |r| >= 5 && r[|r| - 3..] == Meridiem(ParsedHour(t))
  {
    var hour := ParsedHour(t);
    var rest := NatToString(ShownHour(hour)) + ":" + MinutesShown(t);
    EndsWith(rest, Meridiem(hour));
    rest + Meridiem(hour)
  }

  lemma EndsWith(a: string, b: string)
    ensures (a + b)[|a|..] == b
  {
  }

  /**
   * Reading a displayed time back, whatever the text: its hour text is the
   * decimal text of the shown hour, without a leading zero, followed by ':',
   * the minutes text copied as it was, and the AM/PM suffix.
   */
  lemma FormatTimeReadsBack(t: string)
    ensures var r := FormatTime(t); var shown := UpTo(r, ':');
      && |shown| >= 1 && AllDigits(shown) && (|shown| > 1 ==> shown[0] != '0')
      && DecimalValue(shown) == ShownHour(ParsedHour(t))
      && |r| >= |shown| + 4 && r[|shown|] == ':'
      && r[|shown| + 1..|r| - 3] == MinutesShown(t)
      && r[|r| - 3..] == Meridiem(ParsedHour(t))
  {
    var hour := ParsedHour(t);
    NatToStringHasNo(ShownHour(hour), ':');
    DecimalRoundTrip(ShownHour(hour));
    ThreePieces(NatToString(ShownHour(hour)), MinutesShown(t), Meridiem(hour));
  }

  /** The pieces of "<shown>:<minutes><suffix>" when `shown` has no ':'. */
  lemma ThreePieces(shown: string, minutes: string, suffix: string)
    requires ':' !in shown
    ensures var r := shown + ":" + minutes + suffix;
      && UpTo(r, ':') == shown && |r| == |shown| + 1 + |minutes| + |suffix| && r[|shown|] == ':'
      && r[|shown| + 1..|r| - |suffix|] == minutes && r[|r| - |suffix|..] == suffix
  {
    var r := shown + ":" + minutes + suffix;
    var rest := minutes + suffix;
    assert r == shown + [':'] + rest;
    SplitAtFirst(shown, ':', rest);
    assert r[|shown| + 1..] == rest;
    assert r[|shown| + 1..|r| - |suffix|] == rest[..|minutes|];
  }

  /** For clock text, `parseInt` reads the whole hour part and the minutes part is present. */
  lemma ClockHour(t: string)
    requires IsClockText(t)
    ensures ParsedHour(t) == Some(HourOf(t)) && MinutesShown(t) == MinutesText(t)
  {
    LeadingDigitsOfDigits(UpTo(t, ':'));
  }

  /**
   * For clock text the display is the 12-hour clock hour, the minutes and the
   * suffix: 0 and 12 show as 12, 13-23 lose twelve, noon on is "PM".
   */
  lemma ClockTextDisplay(t: string)
    requires IsClockText(t)
    ensures FormatTime(t)
      == NatToString(DisplayHour(HourOf(t))) + ":" + MinutesText(t) + (if HourOf(t) >= 12 then " PM" else " AM")
  {
    ClockHour(t);
  }

  /** A clock text assembled from an hour and a minutes part splits back into them. */
  lemma ClockParts(hours: string, minutes: string)
    requires |hours| > 0 && AllDigits(hours) && ':' !in minutes
    ensures var t := hours + [':'] + minutes;
      IsClockText(t) && HourOf(t) == DecimalValue(hours) && MinutesText(t) == minutes
  {
    assert ':' !in hours by {
      NoColonInDigits(hours);
    }
    SplitAtFirst(hours, ':', minutes);
    assert UpTo(minutes, ':') == minutes;
  }

  lemma NoColonInDigits(s: string)
    requires AllDigits(s)
    ensures ':' !in s
  {
  }

  /** A clock text with a two-digit hour: its hour value and its minutes part. */
  lemma TwoDigitHour(h1: char, h2: char, rest: string)
    requires IsDigit(h1) && IsDigit(h2) && ':' !in rest
    ensures var t := [h1, h2, ':'] + rest;
      IsClockText(t) && HourOf(t) == 10 * DigitValue(h1) + DigitValue(h2) && MinutesText(t) == rest
  {
    var hh := [h1, h2];
    ClockParts(hh, rest);
    assert hh + [':'] + rest == [h1, h2, ':'] + rest;
    assert hh[..1] == [h1] && [h1][..0] == [];
    assert DecimalValue(hh) == DecimalValue([h1]) * 10 + DigitValue(h2);
    assert DecimalValue([h1]) == DigitValue(h1);
  }

  /** A morning time loses the hour's leading zero and keeps its minutes: "08:05" shows as "8:05 AM". */
  lemma FormatTimeMorning(t: string)
    requires t == "08:05"
    ensures FormatTime(t) == "8:05 AM"
  {
    TwoDigitHour('0', '8', "05");
    assert t == ['0', '8', ':'] + "05";
    ClockTextDisplay(t);
  }

  /** The first hour after midnight shows as 12 AM: "00:15" shows as "12:15 AM". */
  lemma FormatTimeMidnight(t: string)
    requires t == "00:15"
    ensures FormatTime(t) == "12:15 AM"
  {
    TwoDigitHour('0', '0', "15");
    assert t == ['0', '0', ':'] + "15";
    ClockTextDisplay(t);
    assert NatToString(12) == "12" by { assert NatToString(1) == "1"; }
  }

  /** Noon shows as 12 PM: "12:30" shows as "12:30 PM". */
  lemma FormatTimeNoon(t: string)
    requires t == "12:30"
    ensures FormatTime(t) == "12:30 PM"
  {
    TwoDigitHour('1', '2', "30");
    assert t == ['1', '2', ':'] + "30";
    ClockTextDisplay(t);
    assert NatToString(12) == "12" by { assert NatToString(1) == "1"; }
  }

  /** Evening hours lose twelve: "23:59" shows as "11:59 PM". */
  lemma FormatTimeEvening(t: string)
    requires t == "23:59"
    ensures FormatTime(t) == "11:59 PM"
  {
    TwoDigitHour('2', '3', "59");
    assert t == ['2', '3', ':'] + "59";
    ClockTextDisplay(t);
    assert NatToString(11) == "11" by { assert NatToString(1) == "1"; }
  }

  /** Text with one ':' splits into its hour part and the minutes shown after it. */
  lemma HourAndMinutes(h: string, m: string)
    requires ':' !in h && ':' !in m
    ensures UpTo(h + [':'] + m, ':') == h && MinutesShown(h + [':'] + m) == m
  {
    SplitAtFirst(h, ':', m);
    UpToPrefix(m, [], ':');
    assert m + [] == m;
  }

  /** The value of four decimal digits. */
  lemma FourDigits(a: char, b: char, c: char, d: char)
    ensures DecimalValue([a, b, c, d]) == ((DigitValue(a) * 10 + DigitValue(b)) * 10 + DigitValue(c)) * 10 + DigitValue(d)
  {
    assert DecimalValue([a, b, c, d]) == DecimalValue([a, b, c]) * 10 + DigitValue(d) by {
      assert [a, b, c, d][..3] == [a, b, c];
    }
    assert DecimalValue([a, b, c]) == DecimalValue([a, b]) * 10 + DigitValue(c) by {
      assert [a, b, c][..2] == [a, b];
    }
    assert DecimalValue([a, b]) == DecimalValue([a]) * 10 + DigitValue(b) by {
      assert [a, b][..1] == [a];
    }
    assert DecimalValue([a]) == DigitValue(a) by {
      assert [a][..0] == [];
    }
  }

  /** An hour part that is not a number shows as 12, and as "AM": "ab:cd" shows as "12:cd AM". */
  lemma FormatTimeNotANumber(t: string)
    requires t == "ab:cd"
    ensures FormatTime(t) == "12:cd AM"
  {
    assert t == "ab" + [':'] + "cd";
    HourAndMinutes("ab", "cd");
    assert LeadingDigits("ab") == [];
    assert ParsedHour(t) == None;
    assert NatToString(12) == "12" by { assert NatToString(1) == "1"; }
    assert FormatTime(t) == "12" + ":" + "cd" + " AM";
  }

  /** Text without ':' is all hour, and its minutes print as "undefined": "0830" shows as "2:undefined PM". */
  lemma FormatTimeNoColon(t: string)
    requires t == "0830"
    ensures FormatTime(t) == "2:undefined PM"
  {
    UpToPrefix(t, [], ':');
    assert t + [] == t;
    LeadingDigitsOfDigits(t);
    FourDigits('0', '8', '3', '0');
    assert t == ['0', '8', '3', '0'];
    assert ParsedHour(t) == Some(830);
    assert NatToString(ShownHour(Some(830))) == "2";
    assert MinutesShown(t) == "undefined";
    assert FormatTime(t) == "2" + ":" + "undefined" + " PM";
  }

  /** `parseInt` stops at the first non-digit: "8a:05" shows as "8:05 AM". */
  lemma FormatTimeTrailingLetter(t: string)
    requires t == "8a:05"
    ensures FormatTime(t) == "8:05 AM"
  {
    assert t == "8a" + [':'] + "05";
    HourAndMinutes("8a", "05");
    assert LeadingDigits("8a") == "8";
    assert DecimalValue("8") == 8 by { assert "8"[..0] == []; }
    assert ParsedHour(t) == Some(8);
    assert FormatTime(t) == "8" + ":" + "05" + " AM";
  }

  // ---------------------------------------------------------------------------
  // formatDuration

  /** Minutes as "<m>m" below an hour, else "<h>h" or "<h>h <m>m". */
  function FormatDuration(minutes: nat): (r: string)
    ensures 'h' in r <==> minutes >= 60
    ensures |r| >= 2 && r[|r| - 1] == if minutes >= 60 && minutes % 60 == 0 then 'h' else 'm'
  {
    if minutes < 60 then
      NatToStringHasNo(minutes, 'h');
      NatToString(minutes) + "m"
    else
      var hours := minutes / 60;
      var mins := minutes % 60;
      NatToStringHasNo(mins, 'h');
      if mins == 0 then NatToString(hours) + "h" else NatToString(hours) + "h " + NatToString(mins) + "m"
  }

  /** The minutes a "<m>m" or " <m>m" tail denotes; the empty tail is 0. */
  function ReadMinutes(t: string): nat {
    var u := if |t| > 0 && t[0] == ' ' then t[1..] else t;
    DecimalValue(UpTo(u, 'm'))
  }

  /** The total number of minutes a duration text denotes. */
  function ReadDuration(s: string): nat {
    if 'h' in s then 60 * DecimalValue(UpTo(s, 'h')) + ReadMinutes(AfterFirst(s, 'h'))
    else ReadMinutes(s)
  }

  /**
   * The duration text denotes exactly the minutes it was made from; from an
   * hour on, its hours part reads as the whole hours and its tail as the
   * spare minutes, which are below 60.
   */
  lemma DurationRoundTrip(minutes: nat)
    ensures ReadDuration(FormatDuration(minutes)) == minutes
    ensures minutes >= 60 ==> var r := FormatDuration(minutes);
      DecimalValue(UpTo(r, 'h')) == minutes / 60 && ReadMinutes(AfterFirst(r, 'h')) == minutes % 60 < 60
  {
    if minutes < 60 {
      ShortDurationRoundTrip(minutes);
    } else {
      LongDurationRoundTrip(minutes);
      DurationText(minutes);
      DecimalRoundTrip(minutes / 60);
      HoursTailRoundTrip(minutes % 60);
    }
  }

  /**
   * The duration text piece by piece: "<n>m" below an hour; otherwise the
   * decimal whole hours before the 'h', and after it nothing on the hour,
   * else a space, the decimal spare minutes and 'm'.
   */
  lemma DurationText(minutes: nat)
    ensures minutes < 60 ==> FormatDuration(minutes) == NatToString(minutes) + "m"
    ensures minutes >= 60 ==> var r := FormatDuration(minutes);
      && UpTo(r, 'h') == NatToString(minutes / 60)
      && (minutes % 60 == 0 ==> AfterFirst(r, 'h') == "")
      && (minutes % 60 != 0 ==> AfterFirst(r, 'h') == " " + NatToString(minutes % 60) + "m")
  {
    if minutes >= 60 {
      var digits := NatToString(minutes / 60);
      var tail := HoursTail(minutes % 60);
      assert FormatDuration(minutes) == digits + ['h'] + tail;
      NatToStringHasNo(minutes / 60, 'h');
      SplitAtFirst(digits, 'h', tail);
    }
  }

  lemma ShortDurationRoundTrip(minutes: nat)
    requires minutes < 60
    ensures ReadDuration(FormatDuration(minutes)) == minutes
  {
    var digits := NatToString(minutes);
    NatToStringHasNo(minutes, 'h');
    NatToStringHasNo(minutes, ' ');
    MinutesTail(minutes);
    assert FormatDuration(minutes) == digits + ['m'];
  }

  lemma LongDurationRoundTrip(minutes: nat)
    requires minutes >= 60
    ensures ReadDuration(FormatDuration(minutes)) == minutes
  {
    var hours := minutes / 60;
    var mins := minutes % 60;
    var digits := NatToString(hours);
    var tail := HoursTail(mins);
    var r := FormatDuration(minutes);
    assert r == digits + ['h'] + tail;
    NatToStringHasNo(hours, 'h');
    SplitAtFirst(digits, 'h', tail);
    DecimalRoundTrip(hours);
    HoursTailRoundTrip(mins);
    assert ReadDuration(r) == 60 * hours + mins;
  }

  /** What follows the 'h' of a duration of `mins` spare minutes. */
  function HoursTail(mins: nat): string {
    if mins == 0 then "" else " " + NatToString(mins) + "m"
  }

  lemma HoursTailRoundTrip(mins: nat)
    ensures ReadMinutes(HoursTail(mins)) == mins
  {
    if mins != 0 {
      var t := HoursTail(mins);
      assert t[1..] == NatToString(mins) + ['m'];
      MinutesTail(mins);
    }
  }

  /** The digits in front of the 'm' of "<m>m" read back as m. */
  lemma MinutesTail(m: nat)
    ensures DecimalValue(UpTo(NatToString(m) + ['m'], 'm')) == m
  {
    var digits := NatToString(m);
    NatToStringHasNo(m, 'm');
    assert digits + ['m'] == digits + ['m'] + [];
    SplitAtFirst(digits, 'm', []);
    DecimalRoundTrip(m);
  }

  /** Durations below an hour are minutes only; whole hours drop the minutes. */
  lemma FormatDurationExamples()
    ensures FormatDuration(45) == "45m"
    ensures FormatDuration(60) == "1h"
    ensures FormatDuration(90) == "1h 30m"
  {
  }

  // ---------------------------------------------------------------------------
  // sortFeedingEntries

  /** The moment an entry records: its day, then the minute of that day. */
  datatype Moment = Moment(day: Date, minute: nat)

  /** Minutes since midnight of a clock text; other text reads as 0. */
  function TimeOfDay(t: string): nat {
    if IsClockText(t) then 60 * HourOf(t) + DecimalValue(MinutesText(t)) else 0
  }

  function MomentOf(e: FeedingEntry): Moment {
    Moment(e.date, TimeOfDay(e.time))
  }

  /** `a` is strictly after `b`. */
  predicate Later(a: Moment, b: Moment) {
    a.day > b.day || (a.day == b.day && a.minute > b.minute)
  }

  /** No entry is followed by a later one. */
  predicate MostRecentFirst(s: seq<FeedingEntry>) {
    forall i, j :: 0 <= i < j < |s| ==> !Later(MomentOf(s[j]), MomentOf(s[i]))
  }

  function AtMoment(k: Moment): FeedingEntry -> bool {
    e => MomentOf(e) == k
  }

  /** The entries of `s` recorded at moment `k`, in their order in `s`. */
  function WithMoment(s: seq<FeedingEntry>, k: Moment): seq<FeedingEntry> {
    Filter(s, AtMoment(k))
  }

  /** `x` put into `t` behind every entry that is not older than it. */
  function Insert(t: seq<FeedingEntry>, x: FeedingEntry): (r: seq<FeedingEntry>)
    ensures |r| == |t| + 1
  {
    if t == [] || !Later(MomentOf(x), MomentOf(t[|t| - 1])) then t + [x]
    else Insert(t[..|t| - 1], x) + [t[|t| - 1]]
  }

  /** The stable most-recent-first order of `s` (insertion sort, front to back). */
  function SortByRecency(s: seq<FeedingEntry>): (r: seq<FeedingEntry>)
    ensures |r| == |s|
  {
    if s == [] then [] else Insert(SortByRecency(s[..|s| - 1]), s[|s| - 1])
  }

  lemma {:induction false} InsertPermutes(t: seq<FeedingEntry>, x: FeedingEntry)
    ensures multiset(Insert(t, x)) == multiset(t) + multiset{x}
  {
    if t != [] && Later(MomentOf(x), MomentOf(t[|t| - 1])) {
      var last := t[|t| - 1];
      InsertPermutes(t[..|t| - 1], x);
      SplitLast(t);
    }
  }

  lemma {:induction false} InsertOrdered(t: seq<FeedingEntry>, x: FeedingEntry)
    requires MostRecentFirst(t)
    ensures MostRecentFirst(Insert(t, x))
  {
    if t == [] || !Later(MomentOf(x), MomentOf(t[|t| - 1])) {
      AppendOrdered(t, x);
    } else {
      var n := |t|;
      var last := t[n - 1];
      var init := t[..n - 1];
      InsertOrdered(init, x);
      InsertPermutes(init, x);
      var u := Insert(init, x);
      forall i | 0 <= i < |u| ensures !Later(MomentOf(last), MomentOf(u[i])) {
        assert u[i] in multiset(u);
        if u[i] != x {
          assert u[i] in multiset(init);
          var k :| 0 <= k < |init| && init[k] == u[i];
          assert t[k] == u[i];
        }
      }
      AppendOrdered(u, last);
    }
  }

  /** Appending an entry that is later than none of a most-recent-first list keeps it so. */
  lemma AppendOrdered(u: seq<FeedingEntry>, y: FeedingEntry)
    requires MostRecentFirst(u)
    requires u == [] || !Later(MomentOf(y), MomentOf(u[|u| - 1]))
      || forall i :: 0 <= i < |u| ==> !Later(MomentOf(y), MomentOf(u[i]))
    ensures MostRecentFirst(u + [y])
  {
    var v := u + [y];
    forall i, j | 0 <= i < j < |v|
      ensures !Later(MomentOf(v[j]), MomentOf(v[i]))
    {
      if j == |u| && u != [] {
        assert !Later(MomentOf(u[|u| - 1]), MomentOf(u[i])) || i == |u| - 1;
      }
    }
  }

  lemma {:induction false} InsertKeepsMoments(t: seq<FeedingEntry>, x: FeedingEntry, k: Moment)
    ensures WithMoment(Insert(t, x), k) == WithMoment(t, k) + WithMoment([x], k)
  {
    var p := AtMoment(k);
    if t == [] || !Later(MomentOf(x), MomentOf(t[|t| - 1])) {
      FilterAppend(t, [x], p);
    } else {
      var last := t[|t| - 1];
      var init := t[..|t| - 1];
      var u := Insert(init, x);
      assert Insert(t, x) == u + [last];
      InsertKeepsMoments(init, x, k);
      FilterAppend(u, [last], p);
      SplitLast(t);
      FilterAppend(init, [last], p);
      FilterSingleton(x, p);
      FilterSingleton(last, p);
      SwapAroundEmpty(Filter(init, p), Filter([x], p), Filter([last], p));
    }
  }

  lemma SwapAroundEmpty(a: seq<FeedingEntry>, x: seq<FeedingEntry>, y: seq<FeedingEntry>)
    requires x == [] || y == []
    ensures a + x + y == a + y + x
  {
    if x == [] {
      assert a + x == a && a + y + x == a + y;
    } else {
      assert a + y == a && a + x + y == a + x;
    }
  }

  /** The sorted list holds the same entries, as often as the input does. */
  lemma {:induction false} SortPermutes(s: seq<FeedingEntry>)
    ensures multiset(SortByRecency(s)) == multiset(s)
  {
    if s != [] {
      var init := s[..|s| - 1];
      SortPermutes(init);
      InsertPermutes(SortByRecency(init), s[|s| - 1]);
      SplitLast(s);
    }
  }

  /** The sorted list is most recent first. */
  lemma {:induction false} SortOrders(s: seq<FeedingEntry>)
    ensures MostRecentFirst(SortByRecency(s))
  {
    if s != [] {
      SortOrders(s[..|s| - 1]);
      InsertOrdered(SortByRecency(s[..|s| - 1]), s[|s| - 1]);
    }
  }

  /** Entries recorded at the same moment keep their input order (the sort is stable). */
  lemma {:induction false} SortIsStable(s: seq<FeedingEntry>, k: Moment)
    ensures WithMoment(SortByRecency(s), k) == WithMoment(s, k)
  {
    if s != [] {
      var init := s[..|s| - 1];
      var x := s[|s| - 1];
      var sorted := SortByRecency(init);
      assert SortByRecency(s) == Insert(sorted, x);
      SortIsStable(init, k);
      InsertKeepsMoments(sorted, x, k);
      SplitLast(s);
      FilterAppend(init, [x], AtMoment(k));
    }
  }

  lemma SplitLast(s: seq<FeedingEntry>)
    requires s != []
    ensures s == s[..|s| - 1] + [s[|s| - 1]]
  {
  }

  /** A list already most recent first comes out unchanged. */
  lemma {:induction false} SortKeepsOrdered(s: seq<FeedingEntry>)
    requires MostRecentFirst(s)
    ensures SortByRecency(s) == s
  {
    if s != [] {
      var init := s[..|s| - 1];
      assert MostRecentFirst(init);
      SortKeepsOrdered(init);
      SplitLast(s);
      assert SortByRecency(s) == Insert(init, s[|s| - 1]);
      assert |init| == 0 || !Later(MomentOf(s[|s| - 1]), MomentOf(init[|init| - 1]));
    }
  }

  /** Sorting the display order again changes nothing. */
  lemma SortIdempotent(s: seq<FeedingEntry>)
    ensures SortByRecency(SortByRecency(s)) == SortByRecency(s)
  {
    SortOrders(s);
    SortKeepsOrdered(SortByRecency(s));
  }

  /** One step of the insertion loop: `x` moves in front of an entry it is later than. */
  lemma InsertPassesOlder(t: seq<FeedingEntry>, x: FeedingEntry, j: nat)
    requires 0 < j <= |t| && Later(MomentOf(x), MomentOf(t[j - 1]))
    ensures Insert(t[..j], x) + t[j..] == Insert(t[..j - 1], x) + t[j - 1..]
  {
    assert t[..j][..j - 1] == t[..j - 1];
    assert t[j - 1..] == [t[j - 1]] + t[j..];
  }

  /** The insertion loop stops in front of the first entry that is not older than `x`. */
  lemma InsertStops(t: seq<FeedingEntry>, x: FeedingEntry, j: nat)
    requires j <= |t| && (j == 0 || !Later(MomentOf(x), MomentOf(t[j - 1])))
    ensures Insert(t[..j], x) == t[..j] + [x]
  {
  }

  /** Sorting one more entry is inserting it into the sorted prefix. */
  lemma SortOneMore(s: seq<FeedingEntry>, i: nat)
    requires i < |s|
    ensures SortByRecency(s[..i + 1]) == Insert(SortByRecency(s[..i]), s[i])
  {
    assert s[..i + 1][..i] == s[..i];
  }

  /** Copying slot `j - 1` into the hole at `j` moves the hole one place down. */
  lemma ShiftHole(b: seq<FeedingEntry>, t: seq<FeedingEntry>, j: nat, i: nat)
    requires 0 < j <= i < |b| && |t| == i
    requires b[..j] == t[..j] && b[j + 1..i + 1] == t[j..]
    ensures b[j := b[j - 1]][..j - 1] == t[..j - 1]
    ensures b[j := b[j - 1]][j..i + 1] == t[j - 1..]
    ensures b[j := b[j - 1]][i + 1..] == b[i + 1..]
  {
    var c := b[j := b[j - 1]];
    assert c[j..i + 1] == [b[j - 1]] + b[j + 1..i + 1];
    assert t[j - 1..] == [t[j - 1]] + t[j..];
  }

  /** Filling the hole at `j` with `x` gives the prefix with `x` inserted at `j`. */
  lemma FillHole(b: seq<FeedingEntry>, t: seq<FeedingEntry>, j: nat, i: nat, x: FeedingEntry)
    requires j <= i < |b| && |t| == i
    requires b[..j] == t[..j] && b[j + 1..i + 1] == t[j..]
    ensures b[j := x][..i + 1] == t[..j] + [x] + t[j..]
    ensures b[j := x][i + 1..] == b[i + 1..]
  {
    var c := b[j := x];
    assert c[..i + 1] == c[..j] + [x] + c[j + 1..i + 1];
  }

  /** Moves `a[i]` down into the sorted prefix `a[..i]`; the rest of the array stays. */
  method InsertInPlace(a: array<FeedingEntry>, i: nat)
    requires i < a.Length
    modifies a
    ensures a[..i + 1] == Insert(old(a[..i]), old(a[i]))
    ensures a[i + 1..] == old(a[i + 1..])
  {
    ghost var t := a[..i];
    var x := a[i];
    var j := i;
    while j > 0 && Later(MomentOf(x), MomentOf(a[j - 1]))
      invariant 0 <= j <= i
      invariant a[..j] == t[..j]
      invariant a[j + 1..i + 1] == t[j..]
      invariant a[i + 1..] == old(a[i + 1..])
      invariant Insert(t, x) == Insert(t[..j], x) + t[j..]
    {
      assert a[j - 1] == t[j - 1];
      InsertPassesOlder(t, x, j);
      ShiftHole(a[..], t, j, i);
      a[j] := a[j - 1];
      j := j - 1;
    }
    InsertStops(t, x, j);
    FillHole(a[..], t, j, i, x);
    a[j] := x;
  }

  /**
   * `[...entries].sort(...)`: a fresh array holding a copy of the entries,
   * sorted in place by insertion; the input sequence is a value and stays as it was.
   */
  method SortFeedingEntries(entries: seq<FeedingEntry>) returns (sorted: seq<FeedingEntry>)
    ensures sorted == SortByRecency(entries)
  {
    var a := new FeedingEntry[|entries|](i requires 0 <= i < |entries| => entries[i]);
    var i := 0;
    while i < a.Length
      invariant 0 <= i <= a.Length == |entries|
      invariant a[..i] == SortByRecency(entries[..i])
      invariant a[i..] == entries[i..]
    {
      assert a[i] == entries[i];
      ghost var before := a[..];
      InsertInPlace(a, i);
      SortOneMore(entries, i);
      TailStays(before, a[..], entries, i);
      i := i + 1;
    }
    assert entries[..a.Length] == entries;
    sorted := a[..];
  }

  /** The unsorted tail past `i + 1` is still the input's. */
  lemma TailStays(before: seq<FeedingEntry>, after: seq<FeedingEntry>, entries: seq<FeedingEntry>, i: nat)
    requires i < |before| == |after| == |entries|
    requires before[i..] == entries[i..] && after[i + 1..] == before[i + 1..]
    ensures after[i + 1..] == entries[i + 1..]
  {
    assert before[i + 1..] == before[i..][1..];
  }

  /** The minute of the day an "HH:00" text names. */
  lemma OnTheHour(h1: char, h2: char)
    requires IsDigit(h1) && IsDigit(h2)
    ensures TimeOfDay([h1, h2, ':', '0', '0']) == 60 * (10 * DigitValue(h1) + DigitValue(h2))
  {
    TwoDigitHour(h1, h2, "00");
    assert [h1, h2, ':'] + "00" == [h1, h2, ':', '0', '0'];
    assert DecimalValue("00") == 0 by { assert "00"[..1] == "0"; }
  }

  /** How the three entries of the ordering example compare. */
  lemma ExampleMoments(e1: FeedingEntry, e2: FeedingEntry, e3: FeedingEntry)
    requires e1.date == 100 && e1.time == "08:00"
    requires e2.date == 100 && e2.time == "20:00"
    requires e3.date == 101 && e3.time == "06:00"
    ensures Later(MomentOf(e2), MomentOf(e1))
    ensures Later(MomentOf(e3), MomentOf(e2))
  {
    OnTheHour('0', '8');
    OnTheHour('2', '0');
    assert e1.time == ['0', '8', ':', '0', '0'] && e2.time == ['2', '0', ':', '0', '0'];
  }

  /** Two entries given oldest first come out swapped. */
  lemma SortPair(e1: FeedingEntry, e2: FeedingEntry)
    requires Later(MomentOf(e2), MomentOf(e1))
    ensures SortByRecency([e1, e2]) == [e2, e1]
  {
    assert [e1, e2][..1] == [e1];
    assert [e1][..0] == [];
    assert SortByRecency([e1]) == [e1];
    assert Insert([e1], e2) == Insert([], e2) + [e1];
  }

  /** An entry later than both of a sorted pair goes in front of them. */
  lemma InsertNewest(e1: FeedingEntry, e2: FeedingEntry, e3: FeedingEntry)
    requires Later(MomentOf(e3), MomentOf(e2)) && Later(MomentOf(e3), MomentOf(e1))
    ensures Insert([e2, e1], e3) == [e3, e2, e1]
  {
    assert [e2, e1][..1] == [e2];
    assert [e2][..0] == [];
    assert Insert([e2], e3) == [e3, e2];
  }

  /** The ordering example: three entries over two days come out newest first. */
  lemma SortExample(e1: FeedingEntry, e2: FeedingEntry, e3: FeedingEntry)
    requires e1.date == 100 && e1.time == "08:00"
    requires e2.date == 100 && e2.time == "20:00"
    requires e3.date == 101 && e3.time == "06:00"
    ensures SortByRecency([e1, e2, e3]) == [e3, e2, e1]
  {
    ExampleMoments(e1, e2, e3);
    SortPair(e1, e2);
    InsertNewest(e1, e2, e3);
    assert [e1, e2, e3][..2] == [e1, e2];
    assert SortByRecency([e1, e2, e3]) == Insert(SortByRecency([e1, e2]), e3);
  }
}
