/** The date side of the past-event filter (script.js:128-181): pulling
    `Month D, YYYY` out of a section heading with the unanchored regex
    `/(\w+)\s+(\d{1,2}),\s+(\d{4})/`, looking the month name up in the fixed
    twelve-entry table, turning `new Date(year, month, day)` into a day number
    the way JavaScript normalises it, and classifying a heading against today. */
module Dates {
  import opened Text

  datatype Option<T> = None | Some(value: T)

  /** The three capture groups of a heading match, the day and year already
      passed through `parseInt`. */
  datatype DateFields = DateFields(monthName: string, day: nat, year: nat)

  // ---------------------------------------------------------------------------
  // Decimal numerals
  // ---------------------------------------------------------------------------

  function Pow10(n: nat): (r: nat)
    ensures r >= 1
  {
    if n == 0 then 1 else 10 * Pow10(n - 1)
  }

  /** `parseInt` of a string of decimal digits (a non-digit, which the regex
      never hands over, would count as 0). */
  function DecimalValue(ds: string): (n: nat)
    ensures n < Pow10(|ds|)
  {
    if ds == [] then 0
    else
      var c := ds[|ds| - 1];
      10 * DecimalValue(ds[..|ds| - 1]) + (if IsDigit(c) then c as int - '0' as int else 0)
  }

  // ---------------------------------------------------------------------------
  // The heading regex
  // ---------------------------------------------------------------------------

  /** Where a match of `(\w+)\s+(\d{1,2}),\s+(\d{4})` puts its parts: the
      word is `s[p..w]`, the spaces `s[w..a]`, the day `s[a..e]`, the comma
      `s[e]`, the spaces `s[e+1..b]` and the year `s[b..b+4]`. */
  datatype Split = Split(p: nat, w: nat, a: nat, e: nat, b: nat)

  /** `m` is a match of the heading regex in `s`. */
  predicate Shape(s: string, m: Split) {
    && m.p < m.w < m.a < m.e <= m.a + 2
    && m.e + 1 < m.b && m.b + 4 <= |s|
    && AllIn(s, m.p, m.w, Word)
    && AllIn(s, m.w, m.a, Space)
    && AllIn(s, m.a, m.e, Digit)
    && s[m.e] == ','
    && AllIn(s, m.e + 1, m.b, Space)
    && AllIn(s, m.b, m.b + 4, Digit)
  }

  /** The capture groups of a match, passed through `parseInt`. */
  function Groups(s: string, m: Split): DateFields
    requires m.p <= m.w <= |s| && m.a <= m.e <= |s| && m.b + 4 <= |s|
  {
    DateFields(s[m.p..m.w], DecimalValue(s[m.a..m.e]), DecimalValue(s[m.b..m.b + 4]))
  }

  /** The regex matches `s` starting at `p`. */
  ghost predicate HasMatchAt(s: string, p: nat) {
    exists m :: Shape(s, m) && m.p == p
  }

  /** `m` is the match `exec` reports: the one with the leftmost start. */
  ghost predicate IsFirstMatch(s: string, m: Split) {
    Shape(s, m) && forall q :: 0 <= q < m.p ==> !HasMatchAt(s, q)
  }

  /** The classes of the regex are pairwise disjoint, so a start position
      admits only one split: backtracking never finds a second one. */
  lemma SplitUnique(s: string, m1: Split, m2: Split)
    requires Shape(s, m1) && Shape(s, m2) && m1.p == m2.p
    ensures m1 == m2
  {
    RunEndUnique(s, m1.p, m1.w, Word);
    RunEndUnique(s, m1.p, m2.w, Word);
    RunEndUnique(s, m1.w, m1.a, Space);
    RunEndUnique(s, m1.w, m2.a, Space);
    RunEndUnique(s, m1.e + 1, m1.b, Space);
    RunEndUnique(s, m1.e + 1, m2.b, Space);
  }

  /** Where `\d{1,2}` starting at `a` stops: greedy, so two digits when
      there are two. */
  function DayEnd(s: string, a: nat): (e: nat)
    requires a <= |s|
    ensures a <= e <= a + 2 && e <= |s| && AllIn(s, a, e, Digit)
    ensures e == a + 2 || e == |s| || !IsDigit(s[e])
  {
    if a < |s| && IsDigit(s[a]) then
      (if a + 1 < |s| && IsDigit(s[a + 1]) then a + 2 else a + 1)
    else a
  }

  /** What `exec` finds when it tries the regex at position `p` alone: each
      greedy quantifier runs as far as its class allows, and since the
      classes are disjoint no backtracking can do better (a two-digit day not
      followed by a comma cannot give way to a one-digit day followed by one). */
  function MatchAt(s: string, p: nat): (r: Option<Split>)
    requires p <= |s|
    ensures r.Some? ==> r.value.p == p && p <= r.value.w <= |s| && r.value.a <= r.value.e <= |s|
    ensures r.Some? ==> r.value.b + 4 <= |s|
  {
    var w := RunEnd(s, p, Word);
    var a := RunEnd(s, w, Space);
    var e := DayEnd(s, a);
    if p < w < a < e < |s| && s[e] == ',' then
      var b := RunEnd(s, e + 1, Space);
      if e + 1 < b && b + 4 <= |s| && AllIn(s, b, b + 4, Digit) then Some(Split(p, w, a, e, b))
      else None
    else None
  }

  /** What `MatchAt` returns is a match of the regex. */
  lemma MatchAtSound(s: string, p: nat)
    requires p <= |s| && MatchAt(s, p).Some?
    ensures Shape(s, MatchAt(s, p).value)
  {
  }

  /** A match of the regex at `p` is what `MatchAt` returns there. */
  lemma MatchAtComplete(s: string, m: Split)
    requires Shape(s, m)
    ensures MatchAt(s, m.p) == Some(m)
  {
    RunEndUnique(s, m.p, m.w, Word);
    RunEndUnique(s, m.w, m.a, Space);
    RunEndUnique(s, m.e + 1, m.b, Space);
    assert IsDigit(s[m.a]);
    if m.e == m.a + 1 {
      assert s[m.a + 1] == ',';
    } else {
      assert IsDigit(s[m.a + 1]);
    }
  }

  /** `MatchAt` succeeds exactly when the regex matches at `p`. */
  lemma MatchAtCorrect(s: string, p: nat)
    requires p <= |s|
    ensures MatchAt(s, p).Some? ==> Shape(s, MatchAt(s, p).value)
    ensures MatchAt(s, p).None? ==> !HasMatchAt(s, p)
  {
    if MatchAt(s, p).Some? {
      MatchAtSound(s, p);
    } else if HasMatchAt(s, p) {
      var m :| Shape(s, m) && m.p == p;
      MatchAtComplete(s, m);
    }
  }

  /** `dateText.match(regex)` from position `p` on: the first start position
      where `MatchAt` succeeds. */
  function FindFrom(s: string, p: nat): (r: Option<Split>)
    requires p <= |s|
    ensures r.Some? ==> p <= r.value.p <= r.value.w <= |s| && r.value.a <= r.value.e <= |s|
    ensures r.Some? ==> r.value.b + 4 <= |s|
    decreases |s| - p
  {
    if p == |s| then None
    else
      match MatchAt(s, p)
      case Some(m) => Some(m)
      case None => FindFrom(s, p + 1)
  }

  /** `dateText.match(/(\w+)\s+(\d{1,2}),\s+(\d{4})/)` reduced to its groups. */
  function ParseHeading(s: string): Option<DateFields> {
    match FindFrom(s, 0)
    case Some(m) => Some(Groups(s, m))
    case None => None
  }

  /** Where the search from `p` stops: at the match it found, or at the end. */
  function SearchEnd(s: string, p: nat): nat
    requires p <= |s|
  {
    match FindFrom(s, p)
    case Some(m) => m.p
    case None => |s|
  }

  /** The search from `p` returns what `MatchAt` gives where it stopped. */
  lemma {:induction false} FindFromFound(s: string, p: nat)
    requires p <= |s| && FindFrom(s, p).Some?
    ensures MatchAt(s, FindFrom(s, p).value.p) == FindFrom(s, p)
    decreases |s| - p
  {
    if MatchAt(s, p).None? {
      FindFromFound(s, p + 1);
    }
  }

  /** The search from `p` passes over position `q` only when `MatchAt`
      fails there. */
  lemma {:induction false} FindFromSkips(s: string, p: nat, q: nat)
    requires p <= |s| && p <= q < SearchEnd(s, p)
    ensures MatchAt(s, q).None?
    decreases q - p
  {
    if p < q {
      FindFromSkips(s, p + 1, q);
    }
  }

  /** The heading parses iff the regex matches somewhere in it, and then the
      groups are those of the leftmost match. */
  lemma ParseHeadingCorrect(s: string)
    ensures ParseHeading(s).Some? <==> exists m :: Shape(s, m)
    ensures ParseHeading(s).Some? ==>
      exists m :: IsFirstMatch(s, m) && ParseHeading(s).value == Groups(s, m)
  {
    forall q | 0 <= q < SearchEnd(s, 0)
      ensures !HasMatchAt(s, q)
    {
      FindFromSkips(s, 0, q);
      MatchAtCorrect(s, q);
    }
    if FindFrom(s, 0).Some? {
      var m := FindFrom(s, 0).value;
      FindFromFound(s, 0);
      MatchAtSound(s, m.p);
      assert IsFirstMatch(s, m);
    } else if exists m :: Shape(s, m) {
      var m :| Shape(s, m);
      assert HasMatchAt(s, m.p);
    }
  }

  /** A match at the very start of the heading is the one that counts. */
  lemma ParseFromStart(s: string, m: Split)
    requires Shape(s, m) && m.p == 0
    ensures ParseHeading(s) == Some(Groups(s, m))
  {
    MatchAtComplete(s, m);
  }

  /** The groups of any match: a day of one or two digits, a year of four,
      and a month name made of word characters. */
  lemma GroupsBounded(s: string, m: Split)
    requires Shape(s, m)
    ensures Groups(s, m).day < 100 && Groups(s, m).year < 10000
    ensures |Groups(s, m).monthName| > 0
    ensures forall k :: 0 <= k < |Groups(s, m).monthName| ==> IsWordChar(Groups(s, m).monthName[k])
  {
    assert Pow10(1) == 10 && Pow10(2) == 100 && Pow10(4) == 10000;
    assert forall k :: 0 <= k < m.w - m.p ==> s[m.p..m.w][k] == s[m.p + k];
  }

  /** Whatever the heading, a parsed day has one or two digits, a parsed year
      four, and the month name is a non-empty run of word characters. */
  lemma ParsedFieldsBounded(s: string)
    requires ParseHeading(s).Some?
    ensures ParseHeading(s).value.day < 100 && ParseHeading(s).value.year < 10000
    ensures |ParseHeading(s).value.monthName| > 0
    ensures forall k :: 0 <= k < |ParseHeading(s).value.monthName| ==>
      IsWordChar(ParseHeading(s).value.monthName[k])
  {
    var m := FindFrom(s, 0).value;
    FindFromFound(s, 0);
    MatchAtSound(s, m.p);
    GroupsBounded(s, m);
  }

  // ---------------------------------------------------------------------------
  // Month lookup
  // ---------------------------------------------------------------------------

  const MonthNames: seq<string> := [
    "January", "February", "March", "April", "May", "June",
    "July", "August", "September", "October", "November", "December"]

  /** Names that `months[name]` finds on `Object.prototype` although they are
      not in the table: the lookup then yields a function or an object rather
      than `undefined`, so the source's unknown-month guard lets them through. */
  const InheritedNames: set<string> := {
    "constructor", "__proto__", "hasOwnProperty", "isPrototypeOf",
    "propertyIsEnumerable", "toLocaleString", "toString", "valueOf",
    "__defineGetter__", "__defineSetter__", "__lookupGetter__", "__lookupSetter__"}

  /** Result of `months[monthName]` on the source's object literal. */
  datatype MonthLookup = Month(index: nat) | Inherited | Undefined

  function IndexFrom(names: seq<string>, name: string, i: nat): (r: Option<nat>)
    requires i <= |names|
    ensures r.Some? ==> i <= r.value < |names| && names[r.value] == name
    ensures r.None? ==> forall k :: i <= k < |names| ==> names[k] != name
    decreases |names| - i
  {
    if i == |names| then None
    else if names[i] == name then Some(i)
    else IndexFrom(names, name, i + 1)
  }

  /** `months[monthName]`: the zero-based index of an exact-case English month
      name, a prototype property for an inherited name, else `undefined`. */
  function LookupMonth(name: string): (r: MonthLookup)
    ensures r.Month? <==> name in MonthNames
    ensures r.Month? ==> r.index < 12 && MonthNames[r.index] == name
    ensures r.Undefined? <==> name !in MonthNames && name !in InheritedNames
  {
    match IndexFrom(MonthNames, name, 0)
    case Some(i) => Month(i)
    case None => if name in InheritedNames then Inherited else Undefined
  }

  // ---------------------------------------------------------------------------
  // Calendar arithmetic
  // ---------------------------------------------------------------------------

  predicate IsLeapYear(y: int) {
    y % 4 == 0 && (y % 100 != 0 || y % 400 == 0)
  }

  function DaysInYear(y: int): nat {
    if IsLeapYear(y) then 366 else 365
  }

  /** Length of month `m` (0 = January) of year `y`. */
  function DaysInMonth(y: int, m: nat): (n: nat)
    requires m < 12
    ensures 28 <= n <= 31
  {
    if m == 1 then (if IsLeapYear(y) then 29 else 28)
    else if m == 3 || m == 5 || m == 8 || m == 10 then 30
    else 31
  }

  /** Days in the months of year `y` before month `m`. */
  function DaysBeforeMonth(y: int, m: nat): nat
    requires m <= 12
  {
    if m == 0 then 0 else DaysBeforeMonth(y, m - 1) + DaysInMonth(y, m - 1)
  }

  /** Leap years among the years 0 to `y - 1` of the proleptic Gregorian
      calendar (year 0 is one). */
  function LeapYearsBefore(y: nat): nat {
    (y + 3) / 4 - (y + 99) / 100 + (y + 399) / 400
  }

  /** Days in the years before year `y`, from year 0 on. */
  function DaysBeforeYear(y: nat): nat {
    365 * y + LeapYearsBefore(y)
  }

  lemma StepBy4(y: nat)
    ensures (y + 4) / 4 == (y + 3) / 4 + (if y % 4 == 0 then 1 else 0)
  {
  }

  lemma StepBy100(y: nat)
    ensures (y + 100) / 100 == (y + 99) / 100 + (if y % 100 == 0 then 1 else 0)
  {
  }

  lemma StepBy400(y: nat)
    ensures (y + 400) / 400 == (y + 399) / 400 + (if y % 400 == 0 then 1 else 0)
  {
  }

  lemma DivisibilityChain(y: nat)
    ensures y % 400 == 0 ==> y % 100 == 0
    ensures y % 100 == 0 ==> y % 4 == 0
  {
    if y % 400 == 0 {
      assert y == 100 * (4 * (y / 400));
    }
    if y % 100 == 0 {
      assert y == 4 * (25 * (y / 100));
    }
  }

  /** The closed form counts year by year: each year adds its own length. */
  lemma NextYear(y: nat)
    ensures DaysBeforeYear(y + 1) == DaysBeforeYear(y) + DaysInYear(y)
  {
    StepBy4(y);
    StepBy100(y);
    StepBy400(y);
    DivisibilityChain(y);
    assert LeapYearsBefore(y + 1) == LeapYearsBefore(y) + (if IsLeapYear(y) then 1 else 0);
  }

  /** Day number of day `d` of month `m` of the full year `y`, counted from
      1 January of year 0. Day 0 and days past the month's end fall into the
      neighbouring months, as JavaScript's MakeDay lets them. */
  function CalendarDay(y: nat, m: nat, d: int): int
    requires m < 12
  {
    DaysBeforeYear(y) + DaysBeforeMonth(y, m) + d - 1
  }

  /** The year `new Date(y, m, d)` uses: 0 to 99 stand for 1900 to 1999. */
  function FullYear(y: nat): nat {
    if y <= 99 then 1900 + y else y
  }

  /** The local midnight `new Date(y, m, d)` denotes, as a day number. */
  function DayNumber(y: nat, m: nat, d: int): int
    requires m < 12
  {
    CalendarDay(FullYear(y), m, d)
  }

  /** A date that names an existing calendar day. */
  predicate IsCalendarDate(y: nat, m: nat, d: int) {
    m < 12 && 1 <= d <= DaysInMonth(y, m)
  }

  /** Lexicographic order on (year, month, day). */
  predicate DateBefore(y1: nat, m1: nat, d1: int, y2: nat, m2: nat, d2: int) {
    y1 < y2 || (y1 == y2 && (m1 < m2 || (m1 == m2 && d1 < d2)))
  }

  lemma {:induction false} MonthsFill(y: int, m1: nat, m2: nat)
    requires m1 < m2 <= 12
    ensures DaysBeforeMonth(y, m1) + DaysInMonth(y, m1) <= DaysBeforeMonth(y, m2)
    decreases m2
  {
    if m1 + 1 < m2 {
      MonthsFill(y, m1, m2 - 1);
    }
  }

  lemma YearHasItsDays(y: int)
    ensures DaysBeforeMonth(y, 12) == DaysInYear(y)
  {
    var feb := DaysInMonth(y, 1);
    assert DaysBeforeMonth(y, 1) == 31;
    assert DaysBeforeMonth(y, 2) == 31 + feb;
    assert DaysBeforeMonth(y, 3) == 62 + feb;
    assert DaysBeforeMonth(y, 4) == 92 + feb;
    assert DaysBeforeMonth(y, 5) == 123 + feb;
    assert DaysBeforeMonth(y, 6) == 153 + feb;
    assert DaysBeforeMonth(y, 7) == 184 + feb;
    assert DaysBeforeMonth(y, 8) == 215 + feb;
    assert DaysBeforeMonth(y, 9) == 245 + feb;
    assert DaysBeforeMonth(y, 10) == 276 + feb;
    assert DaysBeforeMonth(y, 11) == 306 + feb;
    assert DaysBeforeMonth(y, 12) == 337 + feb;
  }

  lemma {:induction false} YearsFill(y1: nat, y2: nat)
    requires y1 < y2
    ensures DaysBeforeYear(y1) + DaysInYear(y1) <= DaysBeforeYear(y2)
    decreases y2
  {
    NextYear(y2 - 1);
    if y1 + 1 < y2 {
      YearsFill(y1, y2 - 1);
    }
  }

  /** A calendar date's day number lies inside its year. */
  lemma DayInsideYear(y: nat, m: nat, d: int)
    requires IsCalendarDate(y, m, d)
    ensures DaysBeforeYear(y) <= CalendarDay(y, m, d) < DaysBeforeYear(y) + DaysInYear(y)
  {
    YearHasItsDays(y);
    if m < 11 {
      MonthsFill(y, m, 12);
    }
  }

  /** On calendar dates the day number orders dates exactly as the calendar
      does: earlier number iff earlier date. */
  lemma CalendarDayOrder(y1: nat, m1: nat, d1: int, y2: nat, m2: nat, d2: int)
    requires IsCalendarDate(y1, m1, d1) && IsCalendarDate(y2, m2, d2)
    ensures CalendarDay(y1, m1, d1) < CalendarDay(y2, m2, d2) <==>
      DateBefore(y1, m1, d1, y2, m2, d2)
  {
    DayInsideYear(y1, m1, d1);
    DayInsideYear(y2, m2, d2);
    if y1 < y2 {
      YearsFill(y1, y2);
    } else if y2 < y1 {
      YearsFill(y2, y1);
    } else if m1 < m2 {
      MonthsFill(y1, m1, m2);
    } else if m2 < m1 {
      MonthsFill(y1, m2, m1);
    }
  }

  /** Distinct calendar dates get distinct day numbers. */
  lemma CalendarDayInjective(y1: nat, m1: nat, d1: int, y2: nat, m2: nat, d2: int)
    requires IsCalendarDate(y1, m1, d1) && IsCalendarDate(y2, m2, d2)
    ensures CalendarDay(y1, m1, d1) == CalendarDay(y2, m2, d2) ==> y1 == y2 && m1 == m2 && d1 == d2
  {
    CalendarDayOrder(y1, m1, d1, y2, m2, d2);
    CalendarDayOrder(y2, m2, d2, y1, m1, d1);
  }

  /** Day 0 of a month is the last day of the month before. */
  lemma DayZeroIsPreviousMonthEnd(y: nat, m: nat)
    requires 0 < m < 12
    ensures CalendarDay(y, m, 0) == CalendarDay(y, m - 1, DaysInMonth(y, m - 1))
  {
  }

  /** Day 0 of January is 31 December of the year before. */
  lemma DayZeroOfJanuary(y: nat)
    requires y > 0
    ensures CalendarDay(y, 0, 0) == CalendarDay(y - 1, 11, 31)
  {
    YearHasItsDays(y - 1);
    NextYear(y - 1);
    assert DaysBeforeMonth(y - 1, 12) == DaysBeforeMonth(y - 1, 11) + 31;
  }

  /** A day past the end of a month rolls into the next month, so that
      "June 31" is 1 July. */
  lemma DayOverflowRollsOver(y: nat, m: nat, d: int)
    requires m < 11
    ensures CalendarDay(y, m, d) == CalendarDay(y, m + 1, d - DaysInMonth(y, m))
  {
  }

  /** A day past 31 December rolls into January of the next year. */
  lemma DecemberOverflowRollsOver(y: nat, d: int)
    ensures CalendarDay(y, 11, d) == CalendarDay(y + 1, 0, d - 31)
  {
    YearHasItsDays(y);
    NextYear(y);
    assert DaysBeforeMonth(y, 12) == DaysBeforeMonth(y, 11) + 31;
  }

  /** Two-digit years denote the twentieth century: `new Date(25, m, d)` is
      the same day as `new Date(1925, m, d)`, and both precede any date of
      year 2000 or later. */
  lemma TwoDigitYearsAreTwentiethCentury(y: nat, m: nat, d: int, y2: nat, m2: nat, d2: int)
    requires y <= 99 && IsCalendarDate(1900 + y, m, d)
    requires y2 >= 2000 && IsCalendarDate(y2, m2, d2)
    ensures DayNumber(y, m, d) == DayNumber(1900 + y, m, d)
    ensures DayNumber(y, m, d) < DayNumber(y2, m2, d2)
  {
    CalendarDayOrder(1900 + y, m, d, y2, m2, d2);
  }

  // ---------------------------------------------------------------------------
  // Today and the verdict on one heading
  // ---------------------------------------------------------------------------

  /** What `new Date()` reports through its local-time getters. */
  datatype LocalTime = LocalTime(year: nat, month: nat, day: nat, msOfDay: nat) {
    predicate Valid() {
      IsCalendarDate(year, month, day) && msOfDay < MsPerDay
    }
  }

  const MsPerDay: nat := 86400000

  /** `new Date(now.getFullYear(), now.getMonth(), now.getDate())`: today's
      local midnight, as a day number. */
  function TodayNumber(now: LocalTime): int
    requires now.Valid()
  {
    DayNumber(now.year, now.month, now.day)
  }

  /** How the filter ends up treating a card, by the heading of its section:
      it stops early for a missing title, an unparsed heading or an undefined
      month; an inherited month name yields an invalid date, which compares as
      neither earlier nor later; otherwise the event is past or not. */
  datatype Verdict = NoTitle | Unparsed | UnknownMonth | InvalidDate | Past | CurrentOrFuture

  /** The checks `removePastEvents` makes for one card, given the text of its
      section's first `.date-title` (None when there is none). */
  function Classify(title: Option<string>, now: LocalTime): Verdict
    requires now.Valid()
  {
    match title
    case None => NoTitle
    case Some(text) =>
      match ParseHeading(text)
      case None => Unparsed
      case Some(f) =>
        match LookupMonth(f.monthName)
        case Undefined => UnknownMonth
        case Inherited => InvalidDate
        case Month(m) => if DayNumber(f.year, m, f.day) < TodayNumber(now) then Past else CurrentOrFuture
  }

  /** Once the heading has parsed and named one of the twelve months, the
      verdict is the comparison of day numbers alone. */
  lemma ClassifyNamedMonth(text: string, now: LocalTime, f: DateFields, m: nat)
    requires now.Valid() && ParseHeading(text) == Some(f) && LookupMonth(f.monthName) == Month(m)
    ensures Classify(Some(text), now) ==
      if DayNumber(f.year, m, f.day) < TodayNumber(now) then Past else CurrentOrFuture
  {
  }

  /** A heading is past exactly when it parses, names one of the twelve
      months, and its date's day number is below today's: the card is kept
      in every other case. */
  lemma PastIff(text: string, now: LocalTime)
    requires now.Valid()
    ensures Classify(Some(text), now) == Past <==>
      exists f :: ParseHeading(text) == Some(f) && f.monthName in MonthNames &&
        DayNumber(f.year, LookupMonth(f.monthName).index, f.day) < TodayNumber(now)
  {
    if Classify(Some(text), now) == Past {
      assert ParseHeading(text) == Some(ParseHeading(text).value);
    }
  }

  /** For a heading that names a real calendar day, "past" means "strictly
      before today's date"; an event dated today is kept. */
  lemma PastMeansEarlierDate(text: string, now: LocalTime, f: DateFields, m: nat)
    requires now.Valid() && now.year >= 100
    requires ParseHeading(text) == Some(f) && LookupMonth(f.monthName) == Month(m)
    requires IsCalendarDate(FullYear(f.year), m, f.day)
    ensures Classify(Some(text), now) == Past <==>
      DateBefore(FullYear(f.year), m, f.day, now.year, now.month, now.day)
    ensures FullYear(f.year) == now.year && m == now.month && f.day == now.day ==>
      Classify(Some(text), now) == CurrentOrFuture
  {
    CalendarDayOrder(FullYear(f.year), m, f.day, now.year, now.month, now.day);
  }

}
