/** Times of day as the administrator class form and route send them ("HH:mm"
    strings), their value in minutes since midnight, and the day names. */
module TimeOfDay {
  import opened Common
  import opened Text

  /** `^([01]\d|2[0-3]):([0-5]\d)$`: a 24-hour time from 00:00 to 23:59. */
  predicate IsTimeString(s: string) {
    && |s| == 5
    && (((s[0] == '0' || s[0] == '1') && IsDigit(s[1])) || (s[0] == '2' && '0' <= s[1] <= '3'))
    && s[2] == ':'
    && '0' <= s[3] <= '5'
    && IsDigit(s[4])
  }

  function DigitValue(c: char): int {
    (c as int) - ('0' as int)
  }

  function Hours(s: string): int
    requires IsTimeString(s)
  {
    DigitValue(s[0]) * 10 + DigitValue(s[1])
  }

  /** Minutes since midnight of an "HH:mm" string. */
  function Minutes(s: string): (m: int)
    requires IsTimeString(s)
    ensures 0 <= m < 24 * 60
  {
    Hours(s) * 60 + DigitValue(s[3]) * 10 + DigitValue(s[4])
  }

  function Digit(d: int): (c: char)
    requires 0 <= d <= 9
    ensures IsDigit(c) && DigitValue(c) == d
  {
    (('0' as int) + d) as char
  }

  /** The "HH:mm" string of a minute of the day. */
  function FormatTime(m: int): (s: string)
    requires 0 <= m < 24 * 60
    ensures IsTimeString(s) && Minutes(s) == m
  {
    var h, mm := m / 60, m % 60;
    [Digit(h / 10), Digit(h % 10), ':', Digit(mm / 10), Digit(mm % 10)]
  }

  /** Every valid time string is the formatting of its own minute value. */
  lemma FormatOfMinutes(s: string)
    requires IsTimeString(s)
    ensures FormatTime(Minutes(s)) == s
  {
    var t := FormatTime(Minutes(s));
    assert Minutes(t) == Minutes(s);
    assert Hours(t) == Hours(s);
    assert DigitValue(t[0]) == DigitValue(s[0]);
    assert DigitValue(t[3]) == DigitValue(s[3]);
  }

  /** For two valid time strings the store's string comparison (the one the overlap
      query runs on its `startTime`/`endTime` columns) agrees with comparing minutes. */
  lemma LexOrderIsTimeOrder(a: string, b: string)
    requires IsTimeString(a) && IsTimeString(b)
    ensures LexLess(a, b) <==> Minutes(a) < Minutes(b)
    ensures LexLessEq(a, b) <==> Minutes(a) <= Minutes(b)
  {
    assert LexLess(a, b) <==>
      a[0] < b[0] || (a[0] == b[0] && LexLess(a[1..], b[1..]));
    assert LexLess(a[1..], b[1..]) <==>
      a[1] < b[1] || (a[1] == b[1] && LexLess(a[2..], b[2..]));
    assert a[2..][1..] == a[3..] && b[2..][1..] == b[3..];
    assert LexLess(a[2..], b[2..]) <==> LexLess(a[3..], b[3..]);
    assert LexLess(a[3..], b[3..]) <==>
      a[3] < b[3] || (a[3] == b[3] && LexLess(a[4..], b[4..]));
    assert a[4..][1..] == [] && b[4..][1..] == [];
    assert LexLess(a[4..], b[4..]) <==> a[4] < b[4];
    if a == b {
      LexLessIrreflexive(a);
    } else if Minutes(a) == Minutes(b) {
      FormatOfMinutes(a);
      FormatOfMinutes(b);
    }
  }

  /** The day choices of the class form and the day names the class route accepts. */
  const DAYS_OF_WEEK: seq<string> :=
    ["Monday", "Tuesday", "Wednesday", "Thursday", "Friday", "Saturday", "Sunday"]

  predicate IsDayName(d: string) {
    d in DAYS_OF_WEEK
  }

  /** The columns of the weekly grids and the names behind a numeric `dayOfWeek`: Sunday = 0. */
  const WEEK_COLUMNS: seq<string> :=
    ["Sunday", "Monday", "Tuesday", "Wednesday", "Thursday", "Friday", "Saturday"]

  /** `getDayName`: the name of a numeric day; out of range yields nothing (JavaScript's `undefined`). */
  function DayName(day: int): (r: Option<string>)
    ensures r.Some? <==> 0 <= day < 7
    ensures r.Some? ==> IsDayName(r.value) && r.value == WEEK_COLUMNS[day]
    ensures r == Some("Sunday") <==> day == 0
  {
    if 0 <= day < |WEEK_COLUMNS| then Some(WEEK_COLUMNS[day]) else None
  }

  /** Position of a day name in the string order the store sorts a text `dayOfWeek`
      column by: Friday, Monday, Saturday, Sunday, Thursday, Tuesday, Wednesday (7 for
      anything else). */
  function DayNameRank(d: string): (r: int)
    ensures 0 <= r <= 7
    ensures r < 7 <==> IsDayName(d)
  {
    if d == "Friday" then 0 else if d == "Monday" then 1 else if d == "Saturday" then 2
    else if d == "Sunday" then 3 else if d == "Thursday" then 4 else if d == "Tuesday" then 5
    else if d == "Wednesday" then 6 else 7
  }

  /** On valid day names the rank orders exactly as the store's string comparison does. */
  lemma DayNameRankIsStringOrder(a: string, b: string)
    requires IsDayName(a) && IsDayName(b)
    ensures LexLess(a, b) <==> DayNameRank(a) < DayNameRank(b)
  {
    if a == b {
      LexLessIrreflexive(a);
    } else {
      LexLessByTwoChars(a, b);
    }
  }

  /** Two strings of length at least two that differ in their first two characters
      compare as those characters do. */
  lemma LexLessByTwoChars(a: string, b: string)
    requires |a| >= 2 && |b| >= 2 && (a[0] != b[0] || a[1] != b[1])
    ensures LexLess(a, b) <==> a[0] < b[0] || (a[0] == b[0] && a[1] < b[1])
  {
    if a[0] == b[0] {
      assert LexLess(a, b) == LexLess(a[1..], b[1..]);
      assert a[1..][0] == a[1] && b[1..][0] == b[1];
    }
  }
}
