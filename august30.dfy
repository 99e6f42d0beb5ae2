/** The one-off removal of the "August 30" section: `window.forceRemoveAugust30`
    (script.js:228-245) and the start-up test that triggers it
    (script.js:248-255), set against the filter's own verdict. */
module August30 {
  import opened Text
  import opened Dates
  import opened DateExamples

  /** `title.includes('August 30')` on the first `.date-title`. */
  predicate MentionsAugust30(title: Option<string>) {
    title.Some? && Contains(title.value, "August 30")
  }

  /** `new Date()` as a time value in milliseconds, counted from local
      midnight of 1 January of year 0. */
  function TimeValue(now: LocalTime): int
    requires now.Valid()
  {
    CalendarDay(now.year, now.month, now.day) * MsPerDay + now.msOfDay
  }

  /** The start-up test as written, `new Date() > new Date(2025, 7, 30)`:
      it compares the current instant with midnight starting August 30. */
  predicate AutoRemoveDueAsWritten(now: LocalTime)
    requires now.Valid()
  {
    TimeValue(now) > DayNumber(2025, 7, 30) * MsPerDay
  }

  /** The intended test, "we are past that date": today's date is after
      30 August 2025. */
  predicate AutoRemoveDue(now: LocalTime)
    requires now.Valid()
  {
    TodayNumber(now) > DayNumber(2025, 7, 30)
  }

  /** The corrected test agrees with the filter: it holds exactly when the
      filter classifies "August 30, 2025" as past. */
  lemma AutoRemoveDueAgreesWithFilter(heading: string, now: LocalTime)
    requires heading == "August 30, 2025" && now.Valid()
    ensures AutoRemoveDue(now) <==> Classify(Some(heading), now) == Past
  {
    AugustThirtiethParses(heading);
    AugustIsMonth7("August");
    ClassifyNamedMonth(heading, now, DateFields("August", 30, 2025), 7);
  }

  /** The test as written holds whenever the intended one does, and in
      addition throughout 30 August 2025 after its first millisecond. */
  lemma AsWrittenFiresOnTheDayItself(now: LocalTime)
    requires now.Valid() && now.year >= 100
    ensures AutoRemoveDueAsWritten(now) <==>
      AutoRemoveDue(now) || (now.year == 2025 && now.month == 7 && now.day == 30 && now.msOfDay > 0)
  {
    var today := CalendarDay(now.year, now.month, now.day);
    var aug30 := DayNumber(2025, 7, 30);
    assert TimeValue(now) == today * MsPerDay + now.msOfDay;
    if today < aug30 {
      assert today * MsPerDay + now.msOfDay < aug30 * MsPerDay by {
        assert (aug30 - today) * MsPerDay >= MsPerDay;
      }
    } else if today > aug30 {
      assert today * MsPerDay >= aug30 * MsPerDay + MsPerDay by {
        assert (today - aug30) * MsPerDay >= MsPerDay;
      }
    } else {
      CalendarDayInjective(now.year, now.month, now.day, 2025, 7, 30);
    }
    if now.year == 2025 && now.month == 7 && now.day == 30 {
      assert today == aug30;
    }
  }

  /** One millisecond into 30 August 2025 the test as written already fires,
      while the date is not yet past. */
  lemma AutoRemoveFiresOnTheDay(now: LocalTime)
    requires now == LocalTime(2025, 7, 30, 1)
    ensures AutoRemoveDueAsWritten(now) && !AutoRemoveDue(now)
  {
    AsWrittenFiresOnTheDayItself(now);
  }

  /** At that moment the filter still keeps the "August 30, 2025" section,
      yet the one-off removal recognises its heading and would drop it. */
  lemma AugustThirtiethKeptOnTheDay(heading: string, now: LocalTime)
    requires heading == "August 30, 2025" && now == LocalTime(2025, 7, 30, 1)
    ensures Classify(Some(heading), now) == CurrentOrFuture
    ensures MentionsAugust30(Some(heading))
  {
    AutoRemoveFiresOnTheDay(now);
    AutoRemoveDueAgreesWithFilter(heading, now);
    AugustThirtiethParses(heading);
    AugustIsMonth7("August");
    ClassifyNamedMonth(heading, now, DateFields("August", 30, 2025), 7);
    AugustThirtiethMentioned(heading);
  }

  lemma AugustThirtiethMentioned(heading: string)
    requires heading == "August 30, 2025"
    ensures Contains(heading, "August 30")
  {
    ContainsIff(heading, "August 30");
    assert OccursAt(heading, "August 30", 0);
  }
}
