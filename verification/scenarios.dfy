/**
 * Worked examples: concrete vote tables evaluated by the model's functions,
 * including a lone voter with an empty list, tied days in order of first
 * appearance in the voters' lists (voter by voter, in the order the voters
 * first voted),
 * and a unanimous best day on which the analysis throws.
 */
module Scenarios {
  import opened Wrappers
  import opened Votes
  import opened Intersection
  import opened MatchScore
  import opened Divergence
  import opened Text

  /** Alice: Monday, Tuesday; Bob: Tuesday, Wednesday. Tuesday is common; Monday scores 1/2. */
  lemma OverlapOnTuesday()
    ensures var v := [Ballot("Alice", ["Monday", "Tuesday"]), Ballot("Bob", ["Tuesday", "Wednesday"])];
      && Intersect(DayLists(v)) == ["Tuesday"]
      && CountOf(v, "Monday") == 1 && MatchBand(CountOf(v, "Monday"), |v|) == Moderate
      && CountOf(v, "Tuesday") == 2 && MatchBand(CountOf(v, "Tuesday"), |v|) == Full
  {
    var v := [Ballot("Alice", ["Monday", "Tuesday"]), Ballot("Bob", ["Tuesday", "Wednesday"])];
    assert "Monday" != "Tuesday" && "Monday" != "Wednesday" by {
      assert "Monday"[0] != "Tuesday"[0] && "Monday"[0] != "Wednesday"[0];
    }
    assert DayLists(v) == [["Monday", "Tuesday"], ["Tuesday", "Wednesday"]];
    assert "Monday" !in ["Tuesday", "Wednesday"];
    assert [["Tuesday", "Wednesday"]][0] == ["Tuesday", "Wednesday"];
    assert !InAll("Monday", [["Tuesday", "Wednesday"]]);
    assert InAll("Tuesday", [["Tuesday", "Wednesday"]]);
    assert CommonPart(["Monday", "Tuesday"], [["Tuesday", "Wednesday"]]) == ["Tuesday"];
    assert v[..1] == [v[0]] && v[..1][..0] == [];
    assert Supporters(v, "Monday") == ["Alice"];
    assert Supporters(v, "Tuesday") == ["Alice", "Bob"];
  }

  const Split: VoteTable := [Ballot("Alice", ["Monday"]), Ballot("Bob", ["Wednesday"])]

  lemma SplitDays()
    ensures AllDays(Split) == ["Monday", "Wednesday"]
    ensures CountOf(Split, "Monday") == 1 && CountOf(Split, "Wednesday") == 1
  {
    var v := Split;
    assert "Monday" != "Wednesday" by {
      assert "Monday"[0] != "Wednesday"[0];
    }
    assert v[..1] == [v[0]] && v[..1][..0] == [];
    assert Flatten(v) == ["Monday", "Wednesday"];
    var s := ["Monday", "Wednesday"];
    assert s[..1] == ["Monday"] && s[..1][..0] == [];
    assert Supporters(v, "Monday") == ["Alice"];
    assert Supporters(v, "Wednesday") == ["Bob"];
  }

  lemma SplitMostAvailable()
    ensures AllDays(Split) != [] && MostAvailable(Split) == ["Monday", "Wednesday"]
  {
    SplitDays();
    var days := AllDays(Split);
    var counts := Tally(Split, days);
    assert counts["Monday"] == 1 && counts["Wednesday"] == 1;
    assert days[1..] == ["Wednesday"] && days[1..][1..] == [];
    assert MaxCount(counts, days[1..]) == 1;
    assert MaxCount(counts, days) == 1;
    assert ClosestDays(counts, days[1..], 1) == ["Wednesday"];
  }

  /** Alice: Monday; Bob: Wednesday. Both days tie and both are offered, Alice's first. */
  lemma TwoDaysTie()
    ensures Explain(Split) == Some(TiedDays(["Monday", "Wednesday"]))
    ensures Message(Split)
      == Some("No days work for everyone. Try " + ("Monday" + " or " + "Wednesday") + ", which have the most availability.")
  {
    SplitExplanation();
    assert ["Monday", "Wednesday"][1..] == ["Wednesday"];
    assert Join(["Monday", "Wednesday"], " or ") == "Monday" + " or " + "Wednesday";
  }

  lemma SplitExplanation()
    ensures Explain(Split) == Some(TiedDays(["Monday", "Wednesday"]))
  {
    SplitMostAvailable();
  }

  /** A single voter who selected nothing is reported as the only voter, not as selecting nothing. */
  lemma SoleEmptyVoter()
    ensures Message([Ballot("Alice", [])]) == Some("Only Alice has voted so far.")
  {
    assert Explain([Ballot("Alice", [])]) == Some(OnlyVoter("Alice"));
    assert Render(OnlyVoter("Alice")) == "Only Alice has voted so far.";
  }

  const Shared: VoteTable := [Ballot("Alice", ["Monday"]), Ballot("Bob", ["Monday", "Tuesday"])]

  lemma SharedDays()
    ensures AllDays(Shared) == ["Monday", "Tuesday"]
    ensures CountOf(Shared, "Monday") == 2 && CountOf(Shared, "Tuesday") == 1
    ensures Blockers(Shared, "Monday") == []
  {
    var v := Shared;
    assert "Monday" != "Tuesday" by {
      assert "Monday"[0] != "Tuesday"[0];
    }
    assert v[..1] == [v[0]] && v[..1][..0] == [];
    assert Flatten(v) == ["Monday", "Monday", "Tuesday"];
    RepeatedMondayOnce();
    assert Supporters(v, "Monday") == ["Alice", "Bob"];
    assert Supporters(v, "Tuesday") == ["Bob"];
  }

  /**
   * A day in every list that is also the single best day makes the analysis
   * throw; the dashboard never calls it here because the intersection is not empty.
   */
  lemma UnanimousDayThrows()
    ensures Explain(Shared) == None
    ensures Intersect(DayLists(Shared)) == ["Monday"]
  {
    SharedMostAvailable();
    SharedIntersection();
  }

  lemma SharedIntersection()
    ensures Intersect(DayLists(Shared)) == ["Monday"]
  {
    assert DayLists(Shared) == [["Monday"], ["Monday", "Tuesday"]];
    assert InAll("Monday", [["Monday", "Tuesday"]]);
    assert CommonPart(["Monday"], [["Monday", "Tuesday"]]) == ["Monday"];
  }

  lemma SharedMostAvailable()
    ensures AllDays(Shared) != [] && MostAvailable(Shared) == ["Monday"]
    ensures Blockers(Shared, "Monday") == []
  {
    SharedDays();
    var days := AllDays(Shared);
    var counts := Tally(Shared, days);
    assert counts["Monday"] == 2 && counts["Tuesday"] == 1;
    assert days[1..] == ["Tuesday"] && days[1..][1..] == [];
    assert MaxCount(counts, days[1..]) == 1;
    assert MaxCount(counts, days) == 2;
    assert ClosestDays(counts, days[1..], 2) == [];
  }

  const OneShort: VoteTable := [Ballot("Alice", ["Monday"]), Ballot("Bob", ["Monday"]), Ballot("Carol", ["Tuesday"])]

  lemma OneShortDays()
    ensures AllDays(OneShort) == ["Monday", "Tuesday"]
    ensures CountOf(OneShort, "Monday") == 2 && CountOf(OneShort, "Tuesday") == 1
    ensures Blockers(OneShort, "Monday") == ["Carol"]
  {
    OneShortFlatten();
    OneShortTally();
  }

  lemma OneShortFlatten()
    ensures AllDays(OneShort) == ["Monday", "Tuesday"]
  {
    var v := OneShort;
    var v1, v2 := v[..1], v[..2];
    assert v1[..0] == [] && v2[..1] == v1 && v[..2] == v2;
    assert Flatten(v1) == ["Monday"];
    assert Flatten(v2) == ["Monday", "Monday"];
    assert Flatten(v) == ["Monday", "Monday", "Tuesday"];
    RepeatedMondayOnce();
  }

  /** The voted days of "Monday", "Monday", "Tuesday", each once in order. */
  lemma RepeatedMondayOnce()
    ensures Dedup(["Monday", "Monday", "Tuesday"]) == ["Monday", "Tuesday"]
  {
    var s := ["Monday", "Monday", "Tuesday"];
    assert s[..2] == ["Monday", "Monday"] && s[..2][..1] == ["Monday"] && s[..2][..1][..0] == [];
    assert Dedup(["Monday"]) == ["Monday"];
    assert Dedup(["Monday", "Monday"]) == ["Monday"];
    assert "Tuesday" !in ["Monday"] by {
      assert "Monday"[0] != "Tuesday"[0];
    }
  }

  lemma OneShortTally()
    ensures CountOf(OneShort, "Monday") == 2 && CountOf(OneShort, "Tuesday") == 1
    ensures Blockers(OneShort, "Monday") == ["Carol"]
  {
    var v := OneShort;
    assert "Monday" != "Tuesday" by {
      assert "Monday"[0] != "Tuesday"[0];
    }
    var v1, v2 := v[..1], v[..2];
    assert v1[..0] == [] && v2[..1] == v1 && v[..2] == v2;
    assert Supporters(v1, "Monday") == ["Alice"];
    assert Supporters(v2, "Monday") == ["Alice", "Bob"];
    assert Supporters(v, "Monday") == ["Alice", "Bob"];
    assert Supporters(v1, "Tuesday") == [];
    assert Supporters(v2, "Tuesday") == [];
    assert Supporters(v, "Tuesday") == ["Carol"];
    assert Blockers(v1, "Monday") == [];
    assert Blockers(v2, "Monday") == [];
  }

  /** Alice, Bob: Monday; Carol: Tuesday. Monday alone leads, and Carol is named as its blocker. */
  lemma OneDayShort()
    ensures Message(OneShort) == Some("Monday" + " is closest to working, but " + "Carol" + " " + "is" + " not available.")
  {
    OneShortDays();
    assert forall e :: e in AllDays(OneShort) && e != "Monday" ==> CountOf(OneShort, e) < CountOf(OneShort, "Monday");
    assert "Monday" !in OneShort[2].days;
    SingleTopDayIsNamed(OneShort, "Monday");
  }
}
