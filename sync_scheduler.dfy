/**
 * The date arithmetic of the sync loop: the half-month ("quinzena")
 * windows covering the trailing 90 days up to today, the two loops of
 * run_loop that count and then process them, and the cursor persisted by
 * save_state and read back by load_state.
 */
module SyncScheduler {
  import opened Base
  import opened Py
  import opened SyncFields

  /** A proleptic Gregorian calendar date, as `datetime.date`. */
  datatype Date = Date(year: int, month: int, day: int)

  predicate IsLeapYear(y: int) {
    y % 4 == 0 && (y % 100 != 0 || y % 400 == 0)
  }

  function DaysInMonth(y: int, m: int): (n: int)
    requires 1 <= m <= 12
    ensures 28 <= n <= 31
    ensures n == 29 <==> m == 2 && IsLeapYear(y)
    ensures n == 28 <==> m == 2 && !IsLeapYear(y)
    ensures n == 30 <==> m in {4, 6, 9, 11}
  {
    if m == 2 then (if IsLeapYear(y) then 29 else 28)
    else if m == 4 || m == 6 || m == 9 || m == 11 then 30
    else 31
  }

  /** A date `datetime.date` accepts (the upper limit of year 9999 is not modelled). */
  predicate Valid(d: Date) {
    d.year >= 1 && 1 <= d.month <= 12 && 1 <= d.day <= DaysInMonth(d.year, d.month)
  }

  /** Chronological order: `a < b`. */
  predicate Before(a: Date, b: Date) {
    a.year < b.year || (a.year == b.year && (a.month < b.month || (a.month == b.month && a.day < b.day)))
  }

  /** `a <= b`. */
  predicate NotAfter(a: Date, b: Date) {
    !Before(b, a)
  }

  /** `d + timedelta(days=1)`: the next valid date, with no valid date in between. */
  function NextDay(d: Date): (r: Date)
    requires Valid(d)
    ensures Valid(r) && Before(d, r)
    ensures forall x :: Valid(x) && Before(d, x) ==> NotAfter(r, x)
  {
    if d.day < DaysInMonth(d.year, d.month) then Date(d.year, d.month, d.day + 1)
    else if d.month < 12 then Date(d.year, d.month + 1, 1)
    else Date(d.year + 1, 1, 1)
  }

  /** `d - timedelta(days=1)`; None below 0001-01-01, where Python raises OverflowError. */
  function PrevDay(d: Date): (r: Option<Date>)
    requires Valid(d)
    ensures r.None? <==> d == Date(1, 1, 1)
    ensures r.Some? ==> Valid(r.value) && Before(r.value, d)
  {
    if d.day > 1 then Some(Date(d.year, d.month, d.day - 1))
    else if d.month > 1 then Some(Date(d.year, d.month - 1, DaysInMonth(d.year, d.month - 1)))
    else if d.year > 1 then Some(Date(d.year - 1, 12, 31))
    else None
  }

  /** Stepping back a day and forward again returns to the same date, and the other way round. */
  lemma NextPrevInverse(d: Date)
    requires Valid(d)
    ensures PrevDay(NextDay(d)) == Some(d)
    ensures d != Date(1, 1, 1) ==> NextDay(PrevDay(d).value) == d
  {
  }

  /** `d - timedelta(days=n)`; None when that falls before year 1. */
  function MinusDays(d: Date, n: nat): (r: Option<Date>)
    requires Valid(d)
    ensures r.Some? ==> Valid(r.value) && NotAfter(r.value, d)
    ensures r.Some? && n > 0 ==> Before(r.value, d)
    decreases n
  {
    if n == 0 then Some(d)
    else match PrevDay(d)
      case None => None
      case Some(p) => MinusDays(p, n - 1)
  }

  // ---------------------------------------------------------------------
  // Half-month windows
  // ---------------------------------------------------------------------

  /** The first day of the half-month holding `d`: the 1st or the 16th. */
  function WindowStart(d: Date): (s: Date)
    requires Valid(d)
    ensures Valid(s) && NotAfter(s, d)
    ensures s.year == d.year && s.month == d.month && (s.day == 1 || s.day == 16)
    ensures s.day == 1 <==> d.day <= 15
  {
    if d.day <= 15 then Date(d.year, d.month, 1) else Date(d.year, d.month, 16)
  }

  /** The last day of the half-month holding `d` (the 15th or the month's last day), clipped to today. */
  function WindowEnd(d: Date, today: Date): (e: Date)
    requires Valid(d) && Valid(today) && NotAfter(d, today)
    ensures Valid(e) && NotAfter(d, e) && NotAfter(e, today)
    ensures e == today || (e.year == d.year && e.month == d.month
      && (if d.day <= 15 then e.day == 15 else e.day == DaysInMonth(d.year, d.month)))
  {
    var lastDay := DaysInMonth(d.year, d.month);
    var candidate :=
      if d.day <= 15 then Date(d.year, d.month, if lastDay >= 15 then 15 else lastDay)
      else Date(d.year, d.month, lastDay);
    if Before(today, candidate) then today else candidate
  }

  type Window = (Date, Date)

  /** The shape every window has: inside one month, from the 1st or the 16th, up to the 15th, the month's end or today. */
  predicate WindowShape(w: Window, today: Date) {
    && Valid(w.0) && Valid(w.1)
    && w.0.year == w.1.year && w.0.month == w.1.month
    && (w.0.day == 1 || w.0.day == 16)
    && NotAfter(w.0, w.1) && NotAfter(w.1, today)
    && (w.1 == today || w.1.day == 15 || w.1.day == DaysInMonth(w.1.year, w.1.month))
  }

  /** After a window that does not end today, the next date opens a new half-month. */
  lemma NextWindowStarts(d: Date, today: Date)
    requires Valid(d) && Valid(today) && NotAfter(d, today)
    requires WindowEnd(d, today) != today
    ensures WindowStart(NextDay(WindowEnd(d, today))) == NextDay(WindowEnd(d, today))
  {
  }

  /**
   * The windows from the one holding `d` to the one ending today, in the
   * order run_loop visits them.
   */
  function Windows(d: Date, today: Date): (ws: seq<Window>)
    requires Valid(d) && Valid(today)
    ensures ws != [] <==> NotAfter(d, today)
    decreases today.year + 1 - d.year, 13 - d.month, 32 - d.day
  {
    if Before(today, d) then []
    else
      var e := WindowEnd(d, today);
      [(WindowStart(d), e)] + Windows(NextDay(e), today)
  }

  /** One step of `Windows`: the window holding `d`, then the windows from the day after it. */
  lemma WindowsUnfold(d: Date, today: Date)
    requires Valid(d) && Valid(today) && NotAfter(d, today)
    ensures Windows(d, today) == [(WindowStart(d), WindowEnd(d, today))] + Windows(NextDay(WindowEnd(d, today)), today)
  {
  }

  /**
   * Every window has the half-month shape, each one starts the day after the
   * previous one ends, the first holds `d` and the last ends today.
   */
  lemma {:induction false} WindowsShape(d: Date, today: Date)
    requires Valid(d) && Valid(today)
    ensures var ws := Windows(d, today);
      && (forall k :: 0 <= k < |ws| ==> WindowShape(ws[k], today))
      && (forall k :: 0 <= k < |ws| - 1 ==> Valid(ws[k].1) && ws[k + 1].0 == NextDay(ws[k].1))
      && (ws != [] ==> ws[0].0 == WindowStart(d) && NotAfter(d, ws[0].1) && ws[|ws| - 1].1 == today)
    decreases today.year + 1 - d.year, 13 - d.month, 32 - d.day
  {
    if NotAfter(d, today) {
      var e := WindowEnd(d, today);
      var next := NextDay(e);
      var ws := Windows(d, today);
      var rest := Windows(next, today);
      WindowsUnfold(d, today);
      WindowsShape(next, today);
      if e != today {
        NextWindowStarts(d, today);
        assert rest != [] && rest[0].0 == next;
      } else {
        assert rest == [];
      }
      forall k | 0 <= k < |ws| ensures WindowShape(ws[k], today) {
        if k > 0 { assert ws[k] == rest[k - 1]; }
      }
      forall k | 0 <= k < |ws| - 1 ensures Valid(ws[k].1) && ws[k + 1].0 == NextDay(ws[k].1) {
        if k > 0 { assert ws[k] == rest[k - 1] && ws[k + 1] == rest[k]; }
      }
    }
  }

  /** Every date from `d` to today lies in exactly the window whose bounds enclose it. */
  lemma {:induction false} WindowsCover(d: Date, today: Date, x: Date)
    requires Valid(d) && Valid(today) && Valid(x)
    requires NotAfter(d, x) && NotAfter(x, today)
    ensures exists k :: 0 <= k < |Windows(d, today)| && NotAfter(Windows(d, today)[k].0, x)
                                                      && NotAfter(x, Windows(d, today)[k].1)
    decreases today.year + 1 - d.year, 13 - d.month, 32 - d.day
  {
    var ws := Windows(d, today);
    var e := WindowEnd(d, today);
    WindowsUnfold(d, today);
    if !NotAfter(x, e) {
      var next := NextDay(e);
      assert NotAfter(next, x);
      WindowsCover(next, today, x);
      var k :| 0 <= k < |Windows(next, today)| && NotAfter(Windows(next, today)[k].0, x)
                                                && NotAfter(x, Windows(next, today)[k].1);
      assert ws[k + 1] == Windows(next, today)[k];
    } else {
      assert ws[0].1 == e;
    }
  }

  /**
   * The first loop of run_loop: walks the windows from base_date to today
   * and counts them.
   */
  method CountWindows(base: Date, today: Date) returns (total: nat)
    requires Valid(base) && Valid(today)
    ensures total == |Windows(base, today)|
  {
    total := 0;
    var tmp := base;
    while NotAfter(tmp, today)
      invariant Valid(tmp)
      invariant tmp == base || tmp.year <= today.year + 1
      invariant total + |Windows(tmp, today)| == |Windows(base, today)|
      decreases today.year + 1 - tmp.year, 13 - tmp.month, 32 - tmp.day
    {
      var ed := WindowEnd(tmp, today);
      total := total + 1;
      tmp := NextDay(ed);
    }
  }

  /**
   * The second loop of run_loop: the windows handed to process_window, in
   * order, with the progress line logged after each one.
   */
  method ProcessWindows(base: Date, today: Date, total: nat) returns (processed: seq<Window>, progress: seq<string>)
    requires Valid(base) && Valid(today)
    requires total == |Windows(base, today)|
    ensures processed == Windows(base, today)
    ensures |progress| == |processed|
    ensures ProgressLog(progress, total)
  {
    processed := [];
    progress := [];
    var d := base;
    var counter := 0;
    while NotAfter(d, today)
      invariant Valid(d)
      invariant d == base || d.year <= today.year + 1
      invariant processed + Windows(d, today) == Windows(base, today)
      invariant counter == |processed| == |progress|
      invariant ProgressLog(progress, total)
      decreases today.year + 1 - d.year, 13 - d.month, 32 - d.day
    {
      var sd := WindowStart(d);
      var ed := WindowEnd(d, today);
      NextWindowDay(processed, d, today);
      processed := processed + [(sd, ed)];
      counter := counter + 1;
      AppendProgress(progress, total);
      progress := progress + [ProgressLine(counter, total)];
      d := NextDay(ed);
    }
  }

  /** After the window holding `d`, the next one starts on a valid later day, at most a year past today. */
  lemma NextWindowDay(processed: seq<Window>, d: Date, today: Date)
    requires Valid(d) && Valid(today) && NotAfter(d, today)
    ensures var n := NextDay(WindowEnd(d, today));
      && Valid(n) && Before(d, n) && n.year <= today.year + 1
      && (processed + [(WindowStart(d), WindowEnd(d, today))]) + Windows(n, today) == processed + Windows(d, today)
  {
    WindowsUnfold(d, today);
    var e := WindowEnd(d, today);
    assert (processed + [(WindowStart(d), e)]) + Windows(NextDay(e), today) == processed + Windows(d, today);
  }

  /** The PROGRESS line logged after window `k` of `total`: a 30-cell bar. */
  function ProgressLine(k: int, total: int): string
  {
    FormatProgress(k, total, 30)
  }

  /** `progress[k]` is the line logged after window `k + 1` of `total`. */
  ghost predicate ProgressLog(progress: seq<string>, total: nat) {
    forall k :: 0 <= k < |progress| ==> progress[k] == ProgressLine(k + 1, total)
  }

  lemma AppendProgress(progress: seq<string>, total: nat)
    requires ProgressLog(progress, total)
    ensures ProgressLog(progress + [ProgressLine(|progress| + 1, total)], total)
  {
    var p := progress + [ProgressLine(|progress| + 1, total)];
    forall k | 0 <= k < |p| ensures p[k] == ProgressLine(k + 1, total) {
      if k < |progress| {
        assert p[k] == progress[k];
      }
    }
  }

  /** The half-month windows of one cycle: base_date is today minus 90 days. */
  method RunCycle(today: Date) returns (processed: seq<Window>, progress: seq<string>)
    requires Valid(today)
    ensures MinusDays(today, 90).None? ==> processed == [] && progress == []
    ensures MinusDays(today, 90).Some? ==> processed == Windows(MinusDays(today, 90).value, today)
    ensures |progress| == |processed|
    ensures processed != [] ==> progress[|progress| - 1] == ProgressLine(|processed|, |processed|)
  {
    match MinusDays(today, 90) {
      case None =>
        processed := [];
        progress := [];
      case Some(base) =>
        var total := CountWindows(base, today);
        processed, progress := ProcessWindows(base, today, total);
    }
  }

  /** The last progress line of a cycle shows a full bar: the counter reaches the counted total. */
  lemma LastProgressIsFull(n: nat)
    requires n > 0
    ensures forall i :: 1 <= i <= 30 ==> ProgressLine(n, n)[i] == '#'
  {
    assert FilledCells(n, n, 30) == 30;
  }

  /** A cycle on a date far enough from year 1 visits windows from before base_date up to today. */
  lemma CycleCoversLast90Days(today: Date)
    requires Valid(today) && today.year >= 2
    ensures MinusDays(today, 90).Some?
    ensures var ws := Windows(MinusDays(today, 90).value, today);
      ws != [] && NotAfter(ws[0].0, MinusDays(today, 90).value) && ws[|ws| - 1].1 == today
  {
    MinusDaysDefined(today, 90);
    var base := MinusDays(today, 90).value;
    assert NotAfter(base, today);
    WindowsShape(base, today);
  }

  /** A lower bound on the number of days from 0001-01-01 to `d`: 336 per year, 28 per month. */
  function DaysFromStartBound(d: Date): int
  {
    336 * (d.year - 1) + 28 * (d.month - 1) + d.day - 1
  }

  /** Stepping back `n` days stays defined while `n` is within that bound. */
  lemma {:induction false} MinusDaysDefined(d: Date, n: nat)
    requires Valid(d) && n <= DaysFromStartBound(d)
    ensures MinusDays(d, n).Some?
    decreases n
  {
    if n > 0 {
      PrevDayBound(d);
      MinusDaysDefined(PrevDay(d).value, n - 1);
    }
  }

  lemma PrevDayBound(d: Date)
    requires Valid(d) && DaysFromStartBound(d) > 0
    ensures PrevDay(d).Some? && DaysFromStartBound(PrevDay(d).value) >= DaysFromStartBound(d) - 1
  {
  }

  // ---------------------------------------------------------------------
  // The persisted cursor
  // ---------------------------------------------------------------------

  /** Two characters as `%m`/`%d` render a number below 100: zero-padded. */
  function Digits2(n: nat): (r: string)
    requires n < 100
    ensures |r| == 2 && AllDigits(r)
  {
    [DigitChar(n / 10), DigitChar(n % 10)]
  }

  /** `cursor_date.strftime('%Y-%m-%d')` as save_state writes it. */
  function FormatIsoDate(d: Date): (s: string)
    requires Valid(d)
    ensures |s| >= 7
  {
    NatToString(d.year) + "-" + Digits2(d.month) + "-" + Digits2(d.day)
  }

  /** The JSON document save_state writes. */
  function SavedState(d: Date): PyValue
    requires Valid(d)
  {
    PDict([("cursor", PStr(FormatIsoDate(d)))])
  }

  /** `%m`: `1[0-2]`, `0[1-9]` or `[1-9]`. */
  function ParseMonth(t: string): (m: Option<int>)
    ensures m.Some? ==> 1 <= m.value <= 12
  {
    if |t| == 1 && '1' <= t[0] <= '9' then Some(DigitValue(t[0]))
    else if |t| == 2 && t[0] == '1' && '0' <= t[1] <= '2' then Some(10 + DigitValue(t[1]))
    else if |t| == 2 && t[0] == '0' && '1' <= t[1] <= '9' then Some(DigitValue(t[1]))
    else None
  }

  /** `%d`: `3[01]`, `[12]\d`, `0[1-9]`, `[1-9]` or a space then `[1-9]`. */
  function ParseDay(t: string): (d: Option<int>)
    ensures d.Some? ==> 1 <= d.value <= 31
  {
    if |t| == 1 && '1' <= t[0] <= '9' then Some(DigitValue(t[0]))
    else if |t| == 2 && t[0] == ' ' && '1' <= t[1] <= '9' then Some(DigitValue(t[1]))
    else if |t| == 2 && t[0] == '3' && '0' <= t[1] <= '1' then Some(30 + DigitValue(t[1]))
    else if |t| == 2 && '1' <= t[0] <= '2' && IsDigit(t[1]) then Some(10 * DigitValue(t[0]) + DigitValue(t[1]))
    else if |t| == 2 && t[0] == '0' && '1' <= t[1] <= '9' then Some(DigitValue(t[1]))
    else None
  }

  /**
   * `datetime.strptime(s, '%Y-%m-%d').date()`: exactly four year digits, a
   * month and a day as the directives accept them, nothing left over, and
   * a date that exists (year 0 does not).
   */
  function ParseIsoDate(s: string): (r: Option<Date>)
    ensures r.Some? ==> Valid(r.value)
  {
    if |s| < 7 || !AllDigits(s[..4]) || s[4] != '-' then None
    else
      var rest := s[5..];
      var monthLen := if |rest| >= 2 && rest[1] == '-' then 1 else 2;
      if |rest| < monthLen + 1 || rest[monthLen] != '-' then None
      else
        match (ParseMonth(rest[..monthLen]), ParseDay(rest[monthLen + 1..]))
        case (Some(m), Some(d)) =>
          var y := ParseNat(s[..4]);
          if y == 0 || d > DaysInMonth(y, m) then None else Some(Date(y, m, d))
        case _ => None
  }

  lemma NatToStringFourDigits(y: nat)
    requires 1000 <= y <= 9999
    ensures |NatToString(y)| == 4
  {
    assert NatToString(y) == NatToString(y / 10) + [DigitChar(y % 10)];
    assert NatToString(y / 10) == NatToString(y / 100) + [DigitChar((y / 10) % 10)];
    assert NatToString(y / 100) == NatToString(y / 1000) + [DigitChar((y / 100) % 10)];
  }

  lemma Digits2Value(n: nat)
    requires n < 100
    ensures 10 * DigitValue(Digits2(n)[0]) + DigitValue(Digits2(n)[1]) == n
  {
  }

  /** A cursor written by save_state for a four-digit year reads back as the same date. */
  lemma ParseFormatRoundTrip(d: Date)
    requires Valid(d) && 1000 <= d.year <= 9999
    ensures ParseIsoDate(FormatIsoDate(d)) == Some(d)
  {
    var ys := NatToString(d.year);
    NatToStringFourDigits(d.year);
    ParseNatToString(d.year);
    MonthRoundTrip(d.month);
    DayRoundTrip(d.day);
    ParseIsoParts(ys, Digits2(d.month), Digits2(d.day), d);
  }

  /** A two-digit month reads back as itself. */
  lemma MonthRoundTrip(m: nat)
    requires 1 <= m <= 12
    ensures ParseMonth(Digits2(m)) == Some(m)
  {
    Digits2Value(m);
  }

  /** A two-digit day reads back as itself. */
  lemma DayRoundTrip(d: nat)
    requires 1 <= d <= 31
    ensures ParseDay(Digits2(d)) == Some(d)
  {
    Digits2Value(d);
  }

  /** A four-digit year, a two-digit month and a two-digit day, joined by dashes, read back as their date. */
  lemma ParseIsoParts(ys: string, ms: string, ds: string, d: Date)
    requires Valid(d) && |ys| == 4 && AllDigits(ys) && ParseNat(ys) == d.year
    requires |ms| == 2 && ParseMonth(ms) == Some(d.month) && ParseDay(ds) == Some(d.day)
    ensures ParseIsoDate(ys + "-" + ms + "-" + ds) == Some(d)
  {
    var s := ys + "-" + ms + "-" + ds;
    assert s[..4] == ys;
    var rest := s[5..];
    assert rest == ms + "-" + ds;
    assert rest[2] == '-' && rest[1] != '-' by {
      assert rest[1] == ms[1];
      assert ms[1] != '-';
    }
    assert rest[..2] == ms;
    assert rest[3..] == ds;
  }

  /**
   * load_state: the saved cursor when it is a date between base_date and
   * today; base_date when the file is missing or unreadable (None here),
   * is not an object, has no usable cursor, or holds an out-of-range date.
   */
  function LoadState(saved: Option<PyValue>, base: Date, today: Date): (r: Date)
    requires Valid(base) && Valid(today)
    ensures Valid(r)
    ensures NotAfter(base, today) ==> NotAfter(base, r) && NotAfter(r, today)
    ensures r != base ==> saved.Some? && GetStr(saved.value, "cursor").PStr?
                          && ParseIsoDate(GetStr(saved.value, "cursor").s) == Some(r)
  {
    if saved.None? || !IsDict(saved.value) then base
    else
      var cursor := GetStr(saved.value, "cursor");
      if !Truthy(cursor) || !cursor.PStr? then base
      else match ParseIsoDate(cursor.s)
        case None => base
        case Some(c) => if Before(c, base) || Before(today, c) then base else c
  }

  /** What save_state writes, load_state reads back while it stays in range. */
  lemma SaveLoadRoundTrip(c: Date, base: Date, today: Date)
    requires Valid(c) && Valid(base) && Valid(today) && 1000 <= c.year <= 9999
    requires NotAfter(base, c) && NotAfter(c, today)
    ensures LoadState(Some(SavedState(c)), base, today) == c
  {
    ParseFormatRoundTrip(c);
    assert GetStr(SavedState(c), "cursor") == PStr(FormatIsoDate(c));
  }
}
