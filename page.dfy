/** The page as the filter and the one-off removal change it: the
    `.date-section` elements in document order, and the cards outside any
    section. */
module Pages {
  import opened Text
  import opened Dates
  import opened EventFilter
  import opened August30

  /** Cutting `p + [x] + r` just before and just after `x` gives back its
      three parts. */
  lemma SpliceParts<T>(p: seq<T>, x: T, r: seq<T>)
    ensures p + ([x] + r) == p + [x] + r
    ensures (p + [x] + r)[..|p|] == p && (p + [x] + r)[|p|] == x
    ensures (p + [x] + r)[|p| + 1..] == r
  {
  }

  /** The page's sections, and the cards that sit outside any section. */
  class Page {
    var sections: seq<Section>
    var looseCards: seq<Card>

    constructor (sections: seq<Section>, looseCards: seq<Card>)
      ensures this.sections == sections && this.looseCards == looseCards
    {
      this.sections := sections;
      this.looseCards := looseCards;
    }

    /** `removePastEvents`, with the fade-out delays dropped: every card is
        judged by its section's heading (script.js:139-181); a past card is
        removed, and once its section holds no card the section is removed too
        (script.js:183-206). Cards outside any section are never touched. */
    method RemovePastEvents(now: LocalTime)
      requires now.Valid()
      modifies this`sections
      ensures sections == Surviving(old(sections), now)
      ensures looseCards == old(looseCards)
    {
      var snapshot := sections;  // `querySelectorAll` returns a static list
      var s := 0;
      var i := 0;  // position of `snapshot[s]` in the live `sections`
      while s < |snapshot|
        invariant s <= |snapshot|
        invariant i == |Surviving(snapshot[..s], now)|
        invariant sections == Surviving(snapshot[..s], now) + snapshot[s..]
      {
        ghost var done := Surviving(snapshot[..s], now);
        KeepStep(snapshot, s, ExpiredOn(now));
        SpliceParts(done, snapshot[s], snapshot[s + 1..]);
        var remains := VisitSectionCards(i, now);
        if remains {
          i := i + 1;
        }
        s := s + 1;
      }
      assert snapshot[..s] == snapshot;
    }

    /** The `forEach` callbacks for the cards of the live section `i`, which
        are consecutive in document order: each card is judged by the same
        heading, so either none is removed or all are, and the section with the
        last of them. */
    method VisitSectionCards(i: nat, now: LocalTime) returns (remains: bool)
      requires now.Valid() && i < |sections|
      modifies this`sections
      ensures remains == !Expires(old(sections)[i], now)
      ensures sections ==
        old(sections)[..i] + (if remains then [old(sections)[i]] else []) + old(sections)[i + 1..]
    {
      ghost var start := sections;
      var sec := sections[i];
      var past := Classify(sec.title, now) == Past;
      var count := |sec.cards|;
      var removed := 0;
      var k := 0;
      while k < count
        invariant k <= count
        invariant removed == if past then k else 0
        invariant past && k == count && count > 0 ==> sections == start[..i] + start[i + 1..]
        invariant !(past && k == count && count > 0) ==>
          sections == start[i := sec.(cards := sec.cards[removed..])]
      {
        ghost var before := sections;
        var gone := VisitCard(i, k - removed, now);
        if gone {
          if count - removed == 1 {
            assert before[..i] == start[..i] && before[i + 1..] == start[i + 1..];
          } else {
            assert sec.cards[removed..][..0] + sec.cards[removed..][1..] == sec.cards[removed + 1..];
          }
          removed := removed + 1;
        }
        k := k + 1;
      }
      remains := removed < count || count == 0;
      if remains {
        assert sec.(cards := sec.cards[0..]) == sec;
        SpliceParts(start[..i], sec, start[i + 1..]);
        assert start == start[..i] + [sec] + start[i + 1..];
      }
    }

    /** The `forEach` callback for one card, at position `at` of the live
        section `i`: a past card is removed, and its section with it once the
        section holds no card. */
    method VisitCard(i: nat, at: nat, now: LocalTime) returns (gone: bool)
      requires now.Valid() && i < |sections| && at < |sections[i].cards|
      modifies this`sections
      ensures gone == (Classify(old(sections)[i].title, now) == Past)
      ensures !gone ==> sections == old(sections)
      ensures gone && |old(sections)[i].cards| == 1 ==>
        sections == old(sections)[..i] + old(sections)[i + 1..]
      ensures gone && |old(sections)[i].cards| > 1 ==>
        sections == old(sections)[i := old(sections)[i].(cards := old(sections)[i].cards[..at] + old(sections)[i].cards[at + 1..])]
    {
      var verdict := Classify(sections[i].title, now);
      gone := verdict == Past;
      if gone {
        var cards := sections[i].cards;
        cards := cards[..at] + cards[at + 1..];
        sections := sections[i := sections[i].(cards := cards)];
        if |cards| == 0 {
          sections := sections[..i] + sections[i + 1..];
        }
      }
    }

    /** `window.forceRemoveAugust30`: looks only at the first section and
        removes it when its first heading contains "August 30". */
    method ForceRemoveAugust30()
      modifies this`sections
      ensures old(sections) != [] && MentionsAugust30(old(sections)[0].title) ==>
        sections == old(sections)[1..]
      ensures !(old(sections) != [] && MentionsAugust30(old(sections)[0].title)) ==>
        sections == old(sections)
      ensures looseCards == old(looseCards)
    {
      if sections != [] {
        var title := sections[0].title;
        if title.Some? && Contains(title.value, "August 30") {
          sections := sections[1..];
        }
      }
    }

    /** The start-up trigger as written: once the current instant is later
        than midnight opening 30 August 2025, call `forceRemoveAugust30` (the
        two-second delay is dropped). It therefore already fires during that
        day; see `August30.AsWrittenFiresOnTheDayItself`. */
    method AutoRemoveAugust30(now: LocalTime)
      requires now.Valid()
      modifies this`sections
      ensures AutoRemoveDueAsWritten(now) && old(sections) != [] && MentionsAugust30(old(sections)[0].title) ==>
        sections == old(sections)[1..]
      ensures !(AutoRemoveDueAsWritten(now) && old(sections) != [] && MentionsAugust30(old(sections)[0].title)) ==>
        sections == old(sections)
      ensures looseCards == old(looseCards)
    {
      if TimeValue(now) > DayNumber(2025, 7, 30) * MsPerDay {
        ForceRemoveAugust30();
      }
    }
  }
}
