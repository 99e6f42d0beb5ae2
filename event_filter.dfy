/** The past-event filter of script.js: `removePastEvents` (script.js:128-211)
    walks every `.event-card`, judges it by the heading of its enclosing
    `.date-section`, removes the past ones and then any section left without
    cards. Here the filter is stated on values; the class in module `Pages`
    carries it out on the live page. */
module EventFilter {
  import opened Dates
  import opened DateExamples

  /** An `.event-card`. Its content never affects the filter. */
  datatype Card = Card(title: string, description: string)

  /** A `.date-section`: the text of its first `.date-title`, if it has one,
      and its cards in document order. */
  datatype Section = Section(title: Option<string>, cards: seq<Card>)

  /** The filter deletes a section (and all its cards) exactly when its
      heading is past and it holds at least one card: every card of a section
      gets the same verdict, so when one goes they all go, and the last removal
      finds the section empty. A section without cards is never visited. */
  predicate Expires(s: Section, now: LocalTime)
    requires now.Valid()
  {
    Classify(s.title, now) == Past && |s.cards| > 0
  }

  /** The heading judgement the filter applies to every section. */
  function ExpiredOn(now: LocalTime): (Section -> bool)
    requires now.Valid()
  {
    s => Expires(s, now)
  }

  /** The sections of `ss` that `expired` does not reject, in order. */
  function Keep(ss: seq<Section>, expired: Section -> bool): seq<Section> {
    if ss == [] then []
    else (if expired(ss[0]) then [] else [ss[0]]) + Keep(ss[1..], expired)
  }

  /** The sections left after one run of the filter. */
  function Surviving(ss: seq<Section>, now: LocalTime): seq<Section>
    requires now.Valid()
  {
    Keep(ss, ExpiredOn(now))
  }

  /** A section is kept iff it was there and is not rejected. */
  lemma {:induction false} KeepMembers(ss: seq<Section>, expired: Section -> bool)
    ensures |Keep(ss, expired)| <= |ss|
    ensures forall s :: s in Keep(ss, expired) <==> s in ss && !expired(s)
  {
    if ss != [] {
      KeepMembers(ss[1..], expired);
      assert forall s :: s in ss <==> s == ss[0] || s in ss[1..];
    }
  }

  /** A section survives iff it was there and does not expire; so exactly the
      expiring sections are removed. */
  lemma SurvivingMembers(ss: seq<Section>, now: LocalTime)
    requires now.Valid()
    ensures |Surviving(ss, now)| <= |ss|
    ensures forall s :: s in Surviving(ss, now) <==> s in ss && !Expires(s, now)
  {
    KeepMembers(ss, ExpiredOn(now));
  }

  /** `a` is `b` with some elements deleted, the rest kept in order. */
  predicate IsSubsequence<T(==)>(a: seq<T>, b: seq<T>) {
    if a == [] then true
    else if b == [] then false
    else if a[0] == b[0] then IsSubsequence(a[1..], b[1..])
    else IsSubsequence(a, b[1..])
  }

  /** The filter works section by section: filtering a concatenation filters
      each part in place. */
  lemma {:induction false} KeepAppend(a: seq<Section>, b: seq<Section>, expired: Section -> bool)
    ensures Keep(a + b, expired) == Keep(a, expired) + Keep(b, expired)
  {
    if a == [] {
      assert a + b == b;
    } else {
      assert (a + b)[0] == a[0];
      assert (a + b)[1..] == a[1..] + b;
      KeepAppend(a[1..], b, expired);
    }
  }

  /** The filter only deletes: it never adds, changes or reorders a section. */
  lemma {:induction false} KeepOnlyDeletes(ss: seq<Section>, expired: Section -> bool)
    ensures IsSubsequence(Keep(ss, expired), ss)
  {
    if ss != [] {
      KeepOnlyDeletes(ss[1..], expired);
      if !expired(ss[0]) {
        assert Keep(ss, expired) == [ss[0]] + Keep(ss[1..], expired);
      } else {
        assert Keep(ss, expired) == Keep(ss[1..], expired);
        SubsequenceOfTail(Keep(ss[1..], expired), ss);
      }
    }
  }

  lemma {:induction false} SubsequenceOfTail<T>(a: seq<T>, b: seq<T>)
    requires b != [] && IsSubsequence(a, b[1..])
    ensures IsSubsequence(a, b)
    decreases |a| + |b|
  {
    if a != [] && a[0] == b[0] {
      SubsequenceTail(a, b[1..]);
    }
  }

  lemma {:induction false} SubsequenceTail<T>(a: seq<T>, b: seq<T>)
    requires a != [] && IsSubsequence(a, b)
    ensures IsSubsequence(a[1..], b)
    decreases |a| + |b|
  {
    if a[0] != b[0] {
      SubsequenceTail(a, b[1..]);
    }
    SubsequenceOfTail(a[1..], b);
  }

  /** One more section of the snapshot: the filter keeps it or drops it, and
      the unvisited rest starts with the next section. */
  lemma KeepStep(ss: seq<Section>, s: nat, expired: Section -> bool)
    requires s < |ss|
    ensures Keep(ss[..s + 1], expired) ==
      Keep(ss[..s], expired) + (if expired(ss[s]) then [] else [ss[s]])
    ensures ss[s..] == [ss[s]] + ss[s + 1..]
  {
    assert ss[..s + 1] == ss[..s] + [ss[s]];
    KeepAppend(ss[..s], [ss[s]], expired);
    assert Keep([ss[s]], expired) == (if expired(ss[s]) then [] else [ss[s]]) + Keep([], expired);
  }

  /** The filter's judgement depends on the date alone: two moments of the
      same day leave the same sections. */
  lemma {:induction false} SurvivingSameDay(ss: seq<Section>, n1: LocalTime, n2: LocalTime)
    requires n1.Valid() && n2.Valid()
    requires n1.year == n2.year && n1.month == n2.month && n1.day == n2.day
    ensures Surviving(ss, n2) == Surviving(ss, n1)
  {
    if ss != [] {
      SurvivingSameDay(ss[1..], n1, n2);
      assert Expires(ss[0], n1) == Expires(ss[0], n2);
    }
  }

  /** A later run on the same day, at whatever moment (the hourly run, the
      run when the tab becomes visible again, the delayed one), removes
      nothing more. */
  lemma SecondRunSameDay(ss: seq<Section>, n1: LocalTime, n2: LocalTime)
    requires n1.Valid() && n2.Valid()
    requires n1.year == n2.year && n1.month == n2.month && n1.day == n2.day
    ensures Surviving(Surviving(ss, n1), n2) == Surviving(ss, n1)
  {
    SurvivingSameDay(Surviving(ss, n1), n1, n2);
    KeepIdempotent(ss, ExpiredOn(n1));
  }

  /** Everything rejected, nothing left. */
  lemma {:induction false} KeepNone(ss: seq<Section>, expired: Section -> bool)
    requires forall k :: 0 <= k < |ss| ==> expired(ss[k])
    ensures Keep(ss, expired) == []
  {
    if ss != [] {
      KeepNone(ss[1..], expired);
    }
  }

  /** For a fixed judgement, a second run removes nothing more. */
  lemma {:induction false} KeepIdempotent(ss: seq<Section>, expired: Section -> bool)
    ensures Keep(Keep(ss, expired), expired) == Keep(ss, expired)
  {
    if ss != [] {
      KeepIdempotent(ss[1..], expired);
      var rest := Keep(ss[1..], expired);
      if !expired(ss[0]) {
        assert Keep(ss, expired) == [ss[0]] + rest;
        assert ([ss[0]] + rest)[0] == ss[0];
        assert ([ss[0]] + rest)[1..] == rest;
      } else {
        assert Keep(ss, expired) == rest;
      }
    }
  }

  /** Nothing rejected, nothing removed. */
  lemma {:induction false} KeepAll(ss: seq<Section>, expired: Section -> bool)
    requires forall k :: 0 <= k < |ss| ==> !expired(ss[k])
    ensures Keep(ss, expired) == ss
  {
    if ss != [] {
      KeepAll(ss[1..], expired);
    }
  }

  /** Sections that are not past survive, and so does every section without
      a title, without a parsable heading or without cards. */
  lemma SurvivingKeepsCurrent(ss: seq<Section>, now: LocalTime)
    requires now.Valid()
    requires forall k :: 0 <= k < |ss| ==> !Expires(ss[k], now)
    ensures Surviving(ss, now) == ss
  {
    KeepAll(ss, ExpiredOn(now));
  }

  /** A lone section that expires leaves nothing behind. */
  lemma ExpiredSectionRemoved(sec: Section, now: LocalTime)
    requires now.Valid() && Expires(sec, now)
    ensures Surviving([sec], now) == []
  {
    KeepNone([sec], ExpiredOn(now));
  }

  /** On 10 September 2025, a section whose only card
      is dated "August 20, 2025" disappears. */
  lemma AugustSectionRemoved(card: Card, heading: string)
    requires heading == "August 20, 2025"
    ensures Surviving([Section(Some(heading), [card])], Sept10) == []
  {
    AugustTwentiethIsPast(heading);
    ExpiredSectionRemoved(Section(Some(heading), [card]), Sept10);
  }

}
