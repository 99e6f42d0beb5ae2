/** Headings dated around 10 September 2025, checked against the model: on
    that day, "September 1, 2025" and "August 20, 2025" are past and
    "September 15, 2025" is not. */
module DateExamples {
  import opened Text
  import opened Dates

  const Sept10: LocalTime := LocalTime(2025, 8, 10, 0)

  lemma Year2025()
    ensures DecimalValue("2025") == 2025
  {
    assert "2025"[..3] == "202";
    assert "202"[..2] == "20";
    assert "20"[..1] == "2";
  }

  lemma SeptemberFirstGroups(s: string)
    requires s == "September 1, 2025"
    ensures Shape(s, Split(0, 9, 10, 11, 13))
    ensures Groups(s, Split(0, 9, 10, 11, 13)) == DateFields("September", 1, 2025)
  {
    assert s[0] == 'S' && s[1] == 'e' && s[2] == 'p' && s[3] == 't' && s[4] == 'e';
    assert s[5] == 'm' && s[6] == 'b' && s[7] == 'e' && s[8] == 'r' && s[9] == ' ';
    assert s[10] == '1' && s[11] == ',' && s[12] == ' ';
    assert s[13] == '2' && s[14] == '0' && s[15] == '2' && s[16] == '5';
    assert s[0..9] == "September" && s[10..11] == "1" && s[13..17] == "2025";
    Year2025();
    assert DecimalValue("1") == 1;
  }

  lemma SeptemberFifteenthGroups(s: string)
    requires s == "September 15, 2025"
    ensures Shape(s, Split(0, 9, 10, 12, 14))
    ensures Groups(s, Split(0, 9, 10, 12, 14)) == DateFields("September", 15, 2025)
  {
    assert s[0] == 'S' && s[1] == 'e' && s[2] == 'p' && s[3] == 't' && s[4] == 'e';
    assert s[5] == 'm' && s[6] == 'b' && s[7] == 'e' && s[8] == 'r' && s[9] == ' ';
    assert s[10] == '1' && s[11] == '5' && s[12] == ',' && s[13] == ' ';
    assert s[14] == '2' && s[15] == '0' && s[16] == '2' && s[17] == '5';
    assert s[0..9] == "September" && s[10..12] == "15" && s[14..18] == "2025";
    Year2025();
    assert "15"[..1] == "1";
    assert DecimalValue("15") == 15;
  }

  lemma AugustTwentiethGroups(s: string)
    requires s == "August 20, 2025"
    ensures Shape(s, Split(0, 6, 7, 9, 11))
    ensures Groups(s, Split(0, 6, 7, 9, 11)) == DateFields("August", 20, 2025)
  {
    assert s[0] == 'A' && s[1] == 'u' && s[2] == 'g' && s[3] == 'u' && s[4] == 's';
    assert s[5] == 't' && s[6] == ' ' && s[7] == '2' && s[8] == '0' && s[9] == ',';
    assert s[10] == ' ' && s[11] == '2' && s[12] == '0' && s[13] == '2' && s[14] == '5';
    assert s[0..6] == "August" && s[7..9] == "20" && s[11..15] == "2025";
    Year2025();
    assert "20"[..1] == "2";
    assert DecimalValue("20") == 20;
  }

  lemma AugustThirtiethGroups(s: string)
    requires s == "August 30, 2025"
    ensures Shape(s, Split(0, 6, 7, 9, 11))
    ensures Groups(s, Split(0, 6, 7, 9, 11)) == DateFields("August", 30, 2025)
  {
    assert s[0] == 'A' && s[1] == 'u' && s[2] == 'g' && s[3] == 'u' && s[4] == 's';
    assert s[5] == 't' && s[6] == ' ' && s[7] == '3' && s[8] == '0' && s[9] == ',';
    assert s[10] == ' ' && s[11] == '2' && s[12] == '0' && s[13] == '2' && s[14] == '5';
    assert s[0..6] == "August" && s[7..9] == "30" && s[11..15] == "2025";
    Year2025();
    assert "30"[..1] == "3";
    assert DecimalValue("30") == 30;
  }

  lemma SeptemberIsMonth8(name: string)
    requires name == "September"
    ensures LookupMonth(name) == Month(8)
  {
    assert MonthNames[8] == "September";
  }

  lemma AugustIsMonth7(name: string)
    requires name == "August"
    ensures LookupMonth(name) == Month(7)
  {
    assert MonthNames[7] == "August";
  }

  lemma SeptemberFirstParses(s: string)
    requires s == "September 1, 2025"
    ensures ParseHeading(s) == Some(DateFields("September", 1, 2025))
  {
    SeptemberFirstGroups(s);
    ParseFromStart(s, Split(0, 9, 10, 11, 13));
  }

  lemma SeptemberFifteenthParses(s: string)
    requires s == "September 15, 2025"
    ensures ParseHeading(s) == Some(DateFields("September", 15, 2025))
  {
    SeptemberFifteenthGroups(s);
    ParseFromStart(s, Split(0, 9, 10, 12, 14));
  }

  lemma AugustTwentiethParses(s: string)
    requires s == "August 20, 2025"
    ensures ParseHeading(s) == Some(DateFields("August", 20, 2025))
  {
    AugustTwentiethGroups(s);
    ParseFromStart(s, Split(0, 6, 7, 9, 11));
  }

  lemma AugustThirtiethParses(s: string)
    requires s == "August 30, 2025"
    ensures ParseHeading(s) == Some(DateFields("August", 30, 2025))
  {
    AugustThirtiethGroups(s);
    ParseFromStart(s, Split(0, 6, 7, 9, 11));
  }

  /** On 10 September 2025, "September 1, 2025" is past. */
  lemma SeptemberFirstIsPast(s: string)
    requires s == "September 1, 2025"
    ensures Classify(Some(s), Sept10) == Past
  {
    SeptemberFirstParses(s);
    SeptemberIsMonth8("September");
    ClassifyNamedMonth(s, Sept10, DateFields("September", 1, 2025), 8);
  }

  /** On 10 September 2025, "September 15, 2025" is still to come. */
  lemma SeptemberFifteenthIsKept(s: string)
    requires s == "September 15, 2025"
    ensures Classify(Some(s), Sept10) == CurrentOrFuture
  {
    SeptemberFifteenthParses(s);
    SeptemberIsMonth8("September");
    ClassifyNamedMonth(s, Sept10, DateFields("September", 15, 2025), 8);
  }

  /** On 10 September 2025, "August 20, 2025" is past. */
  lemma AugustTwentiethIsPast(s: string)
    requires s == "August 20, 2025"
    ensures Classify(Some(s), Sept10) == Past
  {
    AugustTwentiethParses(s);
    AugustIsMonth7("August");
    ClassifyNamedMonth(s, Sept10, DateFields("August", 20, 2025), 7);
  }
}
