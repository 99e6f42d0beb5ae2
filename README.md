# Past-event filter, form validation and swipe gestures of the Ganpati festival site

The site's `script.js` keeps its schedule page current. Each `.date-section` holds a
`.date-title` heading such as "September 1, 2025" and its `.event-card`s.
`removePastEvents` reads every card's section heading with the pattern
`(\w+)\s+(\d{1,2}),\s+(\d{4})`. It looks the month name up in a table of the twelve
English month names. It builds the date with `new Date(year, month, day)` and removes
every card dated strictly before today's local midnight. A section is removed once its
last card has gone. `window.forceRemoveAugust30` removes the first section when its
heading mentions "August 30", and a start-up test calls it once 30 August 2025 has
begun.
`validateMobileInput` checks a trimmed form value against the rule for its `type`
(email, tel, text). It then shows or hides the field's `.validation-message` and
colours the field. The touch handlers of `initializeMobileGestures` turn a quick,
long enough, non-scrolling touch into one of four swipes.

The model has eight modules:

- `Text` holds the character classes of JavaScript regular expressions (`\s`, `\d`,
  `\w`), `String.prototype.trim`, UTF-16 length and substring search.
- `Dates` holds the heading pattern, the month table, `new Date` day arithmetic and
  the verdict on one heading.
- `DateExamples` holds headings dated around 10 September 2025.
- `EventFilter` states on values what one run of the filter leaves of the page.
- `August30` holds the one-off removal test and its intended form.
- `Pages` holds the page as a class whose methods carry out the filter and the
  one-off removal in place.
- `Validation` holds the three rules and the field's message and styles, as a class.
- `Gestures` holds the swipe decision and the handlers' shared state, as a class.

The clock is a parameter. `LocalTime` is what `new Date()` reports through its
local-time getters. Touch coordinates and `Date.now()` readings are parameters of the
handlers.

## Model

| member | source | states |
|---|---|---|
| Text.RunEnd | script.js:150 | the greedy run of one character class from a position: every character in it belongs to the class and the next one does not |
| Text.RunEndUnique | script.js:150 | any maximal run of the class from that position ends where `RunEnd` says, so a greedy and a backtracking match agree |
| Text.TrimStart | script.js:701 | the result is a suffix of the input, everything dropped is white space, and it does not start with white space |
| Text.TrimEnd | script.js:701 | the result is a prefix of the input, everything dropped is white space, and it does not end with white space |
| Text.Trim | script.js:701 | the trimmed value is a slice of the input with only white space before and after it, and it neither starts nor ends with white space |
| Text.TrimIdempotent | script.js:701 | trimming a trimmed value changes nothing |
| Text.TrimAllSpace | script.js:701 | a value of white space only trims to the empty string |
| Text.TrimStartSkipsPadding | script.js:701 | leading white space does not change the start-trimmed value |
| Text.TrimEndSkipsPadding | script.js:701 | trailing white space does not change the end-trimmed value |
| Text.TrimStartOfAppend | script.js:701 | text appended after a non-blank value survives start-trimming untouched |
| Text.TrimPadding | script.js:701 | any white space added in front of a value and any added behind it leave its trimmed form unchanged |
| Text.Utf16Length | script.js:718 | `value.length` counts UTF-16 code units: between one and two per character |
| Text.Utf16LengthAppend | script.js:718 | the UTF-16 length of a concatenation is the sum of the parts' lengths |
| Text.ContainsIff | script.js:233 | `includes` holds exactly when the pattern occurs at some position of the text |
| Dates.DecimalValue | script.js:157-158 | `parseInt` of a run of n digits is below 10^n |
| Dates.SplitUnique | script.js:150 | at a given start position the pattern can match in at most one way |
| Dates.DayEnd | script.js:150 | `\d{1,2}` takes up to two digits, greedily, and only digits |
| Dates.MatchAt | script.js:150 | a match found at a position starts there and its groups lie inside the heading |
| Dates.MatchAtSound | script.js:150 | what the matcher reports at a position is a match of the pattern there |
| Dates.MatchAtComplete | script.js:150 | every match of the pattern at a position is the one the matcher reports there |
| Dates.MatchAtCorrect | script.js:150 | the matcher at a position finds a match of the pattern, or there is none at that position |
| Dates.FindFrom | script.js:150 | the search from a position reports a match lying at or after that position |
| Dates.FindFromFound | script.js:150 | the search's result is the matcher's answer at the position it reports |
| Dates.FindFromSkips | script.js:150 | the search passes over no position where the pattern would match |
| Dates.ParseHeadingCorrect | script.js:150-158 | `match` succeeds exactly when the pattern occurs somewhere in the heading, and then yields the groups of the leftmost occurrence |
| Dates.ParseFromStart | script.js:150-158 | a heading that matches at its first character yields that match's groups |
| Dates.GroupsBounded | script.js:156-158 | a match's month name is a non-empty run of word characters, its day is below 100 and its year below 10000 |
| Dates.ParsedFieldsBounded | script.js:150-158 | a parsed heading has a non-empty word month name, a day below 100 and a year below 10000 |
| Dates.IndexFrom | script.js:161-166 | the search of the month table finds the position holding the name, or shows no such position exists |
| Dates.LookupMonth | script.js:161-170 | the lookup yields a month index exactly for the twelve names, with the right index, and `undefined` exactly for names neither in the table nor inherited from `Object.prototype` |
| Dates.DaysInMonth | script.js:173 | every month has between 28 and 31 days |
| Dates.NextYear | script.js:173 | the day count at the start of year y+1 is the count at the start of y plus the days of y, leap years included |
| Dates.MonthsFill | script.js:173 | each month's days end no later than the start of any later month |
| Dates.YearHasItsDays | script.js:173 | the twelve months add up to the days of the year |
| Dates.YearsFill | script.js:173 | the days of a year end no later than the start of any later year |
| Dates.DayInsideYear | script.js:173 | a calendar date's day number lies inside its year |
| Dates.CalendarDayOrder | script.js:173-181 | day numbers of calendar dates compare as the dates do: by year, then month, then day |
| Dates.CalendarDayInjective | script.js:173-181 | two calendar dates with the same day number are the same date |
| Dates.DayZeroIsPreviousMonthEnd | script.js:173 | day 0 of a month is the last day of the month before |
| Dates.DayZeroOfJanuary | script.js:173 | day 0 of January is 31 December of the year before |
| Dates.DayOverflowRollsOver | script.js:173 | a day beyond the month's end rolls over into the next month |
| Dates.DecemberOverflowRollsOver | script.js:173 | a day beyond 31 December rolls over into January of the next year |
| Dates.TwoDigitYearsAreTwentiethCentury | script.js:173 | `new Date` reads a year of 0 to 99 as 1900 to 1999, so such a heading is earlier than any date from 2000 on |
| Dates.PastIff | script.js:139-181 | a card is judged past exactly when its heading parses, names one of the twelve months and its date is before today; every other heading keeps the card |
| Dates.PastMeansEarlierDate | script.js:173-181 | for a real calendar date, past means strictly before today's date, so an event dated today is kept |
| DateExamples.Year2025 | script.js:158 | `parseInt("2025")` is 2025 |
| DateExamples.SeptemberFirstGroups | script.js:150-158 | "September 1, 2025" matches at its start with groups September, 1, 2025 |
| DateExamples.SeptemberFifteenthGroups | script.js:150-158 | "September 15, 2025" matches at its start with groups September, 15, 2025 |
| DateExamples.AugustTwentiethGroups | script.js:150-158 | "August 20, 2025" matches at its start with groups August, 20, 2025 |
| DateExamples.AugustThirtiethGroups | script.js:150-158 | "August 30, 2025" matches at its start with groups August, 30, 2025 |
| DateExamples.SeptemberIsMonth8 | script.js:161-166 | September is month index 8 |
| DateExamples.AugustIsMonth7 | script.js:161-166 | August is month index 7 |
| DateExamples.SeptemberFirstParses | script.js:150-158 | the heading "September 1, 2025" parses to September 1, 2025 |
| DateExamples.SeptemberFifteenthParses | script.js:150-158 | the heading "September 15, 2025" parses to September 15, 2025 |
| DateExamples.AugustTwentiethParses | script.js:150-158 | the heading "August 20, 2025" parses to August 20, 2025 |
| DateExamples.AugustThirtiethParses | script.js:150-158 | the heading "August 30, 2025" parses to August 30, 2025 |
| DateExamples.SeptemberFirstIsPast | script.js:173-181 | on 10 September 2025 a card under "September 1, 2025" is past |
| DateExamples.SeptemberFifteenthIsKept | script.js:173-181 | on 10 September 2025 a card under "September 15, 2025" is kept |
| DateExamples.AugustTwentiethIsPast | script.js:173-181 | on 10 September 2025 a card under "August 20, 2025" is past |
| EventFilter.KeepMembers | script.js:139-206 | a section is kept exactly when it was on the page and is not rejected, and nothing is added |
| EventFilter.SurvivingMembers | script.js:139-206 | after one run exactly the sections with a past heading and at least one card are gone |
| EventFilter.KeepAppend | script.js:139-206 | the filter works section by section: filtering two runs of sections filters each in place |
| EventFilter.KeepOnlyDeletes | script.js:189-206 | the filter only removes elements: what is left is a subsequence of the page, in document order |
| EventFilter.KeepStep | script.js:139 | visiting one more section of the static card list extends the result by that section or by nothing |
| EventFilter.KeepNone | script.js:189-206 | when every section is rejected, none is left |
| EventFilter.KeepIdempotent | script.js:213-225 | for one fixed judgement, a second run removes nothing more |
| EventFilter.SurvivingSameDay | script.js:129-132 | the filter depends on today's date only: two moments of the same day leave the same sections |
| EventFilter.SecondRunSameDay | script.js:213-225 | a repeated run at any later moment of the same day removes nothing more, so the hourly, visibility and delayed re-runs are harmless within a day |
| EventFilter.KeepAll | script.js:207-209 | when no section is rejected, the page is left as it was |
| EventFilter.SurvivingKeepsCurrent | script.js:139-181 | a page without expired sections is left as it was: headings that are missing, unparsed, of an unknown month or not past keep their cards |
| EventFilter.ExpiredSectionRemoved | script.js:189-206 | a lone section whose heading is past disappears together with its cards |
| EventFilter.AugustSectionRemoved | script.js:128-211 | on 10 September 2025 a section dated "August 20, 2025" disappears with its card |
| August30.AutoRemoveDueAgreesWithFilter | script.js:247-250 | the corrected start-up test holds exactly when the filter judges "August 30, 2025" past |
| August30.AsWrittenFiresOnTheDayItself | script.js:248-250 | the test as written holds whenever the corrected one does, and in addition during 30 August 2025 after its first millisecond |
| August30.AutoRemoveFiresOnTheDay | script.js:248-250 | one millisecond into 30 August 2025 the test as written fires while the date is not yet past |
| August30.AugustThirtiethKeptOnTheDay | script.js:228-233 | at that moment the filter keeps the "August 30, 2025" section, yet the one-off removal recognises its heading |
| August30.AugustThirtiethMentioned | script.js:233 | the heading "August 30, 2025" includes "August 30" |
| Pages.Page.RemovePastEvents | script.js:128-211 | one run leaves exactly the sections the filter keeps, in order, and leaves cards outside any section alone |
| Pages.Page.VisitSectionCards | script.js:139-206 | the callbacks for one section's cards either remove none of them or remove them all and then the section, by its heading's verdict |
| Pages.Page.VisitCard | script.js:139-206 | one callback removes the card exactly when its heading is past, and its section too when it was the last card |
| Pages.Page.ForceRemoveAugust30 | script.js:228-245 | the first section is removed when its first heading includes "August 30"; otherwise nothing changes |
| Pages.Page.AutoRemoveAugust30 | script.js:247-255 | the start-up trigger, as written, calls the one-off removal once the current instant is later than midnight opening 30 August 2025; cards outside sections are untouched |
| Validation.FirstIndex | script.js:708 | the position of the first given character, or the length when there is none |
| Validation.EmailIff | script.js:708-709 | the direct email check accepts exactly the strings `^[^\s@]+@[^\s@]+\.[^\s@]+$` matches |
| Validation.TelIff | script.js:713-714 | the direct phone check accepts exactly the strings `^[\+]?[0-9\s\-\(\)]{10,}$` matches |
| Validation.TelNeedsNoDigit | script.js:713-714 | the phone pattern accepts ten hyphens: it asks for no digit at all |
| Validation.Check | script.js:706-721 | an email, tel or text value is valid exactly when its rule holds; any other type is valid; the message is empty exactly when the value is valid, and otherwise it is the message of the rule for the field's type |
| Validation.ValidateIgnoresPadding | script.js:701 | any white space before and after the value never changes the verdict or the message |
| Validation.OneCharacterText | script.js:718 | a one-character text value passes exactly when the character lies outside the Basic Multilingual Plane |
| Validation.ShownMessagesTrackVerdict | script.js:724-742 | with at most one message element before, there is at most one after, and one exactly when the value is invalid, naming what is wrong |
| Validation.FormField.ValidateMobileInput | script.js:700-747 | the verdict is the rule on the trimmed value; the message elements, border colour and background colour follow it |
| Validation.FormField.ShowVerdict | script.js:724-746 | a missing message is created for an invalid value, an existing one is removed or rewritten, and the border and background are set from the verdict |
| Gestures.SwipeOf | script.js:491-515 | a swipe fires in a direction exactly when the touch lasted under 300 ms and moved more than 50 px that way, further than across |
| Gestures.DiagonalIsNoSwipe | script.js:496-507 | a movement as long across as down fires no swipe |
| Gestures.MirrorSwapsLeftAndRight | script.js:496-503 | mirroring a movement swaps the left and right swipes and keeps the others |
| Gestures.TransposeSwapsAxes | script.js:496-515 | exchanging the axes exchanges right with down and left with up |
| Gestures.Fired | script.js:494-516 | the handler calls a swipe makes: exactly one for a swipe and none otherwise |
| Gestures.SwipeTracker.constructor | script.js:456-459 | the handlers start with no touch and no scroll |
| Gestures.SwipeTracker.TouchStart | script.js:462-467 | a touch start records its position and time and clears the scroll flag |
| Gestures.SwipeTracker.TouchMove | script.js:470-480 | a move marks the touch as a scroll exactly when a start is recorded and the move is mostly vertical by more than 10 px; the flag is never cleared here |
| Gestures.SwipeTracker.TouchEnd | script.js:483-522 | without a start, or after a scroll, nothing happens; otherwise at most one swipe handler is called, the one for the movement, and the start is reset |

## Left out

- The fade-out styles and the 500 ms delays before a card or section is removed are not modelled. Removal happens at once, and only the page after all removals is modelled: the source removes every past card after 500 ms and each emptied section 500 ms later, while the model removes each section right after its last card. A second run that starts within those delays is not modelled either.
- The console messages are not modelled; they only log.
- The hourly interval, the `visibilitychange` listener, the one-second delayed run and the two-second delay before the one-off removal are not modelled. Each is a call of the same operation at another time; `EventFilter.SecondRunSameDay` covers a repeated run on the same day.
- Local time offsets and daylight saving are not modelled. Local midnights are compared by calendar day number, which is what the comparison at script.js:181 decides when both sides are local midnights.
- A `.date-title` inside a card and sections nested in sections are not modelled. A section is its first heading's text and its cards in document order. Cards outside any section are kept as a list that no operation changes.
- The `Object.prototype` names that the month lookup finds are not followed into `new Date`. They are modelled as the verdict `InvalidDate`, which keeps the card, as the resulting invalid date does.
- What the four swipe handlers do is not modelled. `SwipeTracker.TouchEnd` returns the list of handlers it would call.
- Gestures.SwipeTracker.TouchMove: touch coordinates are whole numbers here, while the browser reports fractional pixels. The "no start" test is a test for 0, so a start exactly at coordinate 0 counts as no start, as in the source.
- Gestures.SwipeTracker.TouchEnd: `handleSwipeRight`, `handleSwipeLeft`, `handleSwipeDown` and `handleSwipeUp` are not defined in `script.js`; the model assumes each call returns normally. If one is undefined when the page runs, the call throws and the reset at script.js:519-521 does not happen after a recognised swipe.
- The inline style of a new validation message is not modelled. A message element is its `innerHTML`, the icon markup followed by the message text.
- Validation.FormField.ValidateMobileInput: the field's type and value are fixed for the call. Other elements under the same parent are not modelled.
- The pull-to-refresh, navigation, countdown and other handlers elsewhere in `script.js` are outside this model.

## Findings

| source | as written | input that shows it | evidently intended | confidence | as-written member | corrected member |
|---|---|---|---|---|---|---|
| script.js:248-250 | `new Date() > new Date(2025, 7, 30)` compares the current instant, time of day included, with the midnight that opens 30 August 2025 | the clock at 00:00:00.001 on 30 August 2025 (`LocalTime(2025, 7, 30, 1)`) | remove the section only once 30 August 2025 is past, as the filter at script.js:181 judges it, so an event is kept on its own day | medium, not executed | August30.AutoRemoveFiresOnTheDay | August30.AutoRemoveDueAgreesWithFilter |
