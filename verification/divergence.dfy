/**
 * `analyzeNoCommonDays(game)` (server.js:45-89): explains why no day suits
 * every voter. A chain of early answers (nobody voted, one voter, nobody
 * selected anything) is followed by the search for the days with the most
 * votes; one such day is named with its blockers, several are offered as
 * alternatives.
 */
module Divergence {
  import opened Wrappers
  import opened Subsequences
  import opened Votes
  import opened Intersection
  import opened Text

  datatype Explanation =
    | NoVotes
    | OnlyVoter(name: string)
    | NothingSelected
    | ClosestDay(day: string, blockers: seq<string>)
    | TiedDays(days: seq<string>)

  /**
   * The explanation texts, as the source words them. The two fixed texts of
   * the early answers are told apart from every other answer.
   */
  function Render(e: Explanation): (r: string)
    ensures r == "No players have voted yet." <==> e.NoVotes?
    ensures r == "Players haven't selected any days." <==> e.NothingSelected?
    ensures e.ClosestDay? ==> |r| > |e.day| && r[..|e.day|] == e.day
  {
    var noVotes := "No players have voted yet.";
    var nothing := "Players haven't selected any days.";
    assert noVotes[0] == 'N' && noVotes[3] == 'p' && nothing[0] == 'P';
    match e
    case NoVotes => noVotes
    case OnlyVoter(name) =>
      var t := "Only " + name + " has voted so far.";
      assert t[0] == 'O';
      t
    case NothingSelected => nothing
    case ClosestDay(day, blockers) =>
      var t := day + " is closest to working, but " + Join(blockers, ", ") + " "
        + (if |blockers| > 1 then "are" else "is") + " not available.";
      assert |t| > |day| + 40 && t[..|day|] == day;
      t
    case TiedDays(days) =>
      var t := "No days work for everyone. Try " + Join(days, " or ") + ", which have the most availability.";
      assert t[0] == 'N' && t[3] == 'd';
      t
  }

  /** `dayVoteCounts`: each listed day mapped to its number of voters. */
  function Tally(v: VoteTable, days: seq<string>): map<string, nat>
  {
    map d | d in days :: CountOf(v, d)
  }

  /** `Math.max(...Object.values(dayVoteCounts))` over a non-empty list of days. */
  function MaxCount(counts: map<string, nat>, days: seq<string>): (m: nat)
    requires days != []
    requires forall i :: 0 <= i < |days| ==> days[i] in counts
    ensures forall i :: 0 <= i < |days| ==> counts[days[i]] <= m
    ensures exists i :: 0 <= i < |days| && counts[days[i]] == m
  {
    if |days| == 1 then counts[days[0]]
    else
      var rest := MaxCount(counts, days[1..]);
      assert forall i :: 1 <= i < |days| ==> days[i] == days[1..][i - 1];
      if counts[days[0]] >= rest then counts[days[0]] else rest
  }

  /** `Object.keys(dayVoteCounts).filter(day => dayVoteCounts[day] === maxVotes)`. */
  function ClosestDays(counts: map<string, nat>, days: seq<string>, maxVotes: nat): (r: seq<string>)
    requires forall i :: 0 <= i < |days| ==> days[i] in counts
    ensures forall d :: d in r <==> d in days && counts[d] == maxVotes
    ensures NoDuplicates(days) ==> NoDuplicates(r)
    ensures IsSubsequence(r, days)
  {
    if days == [] then []
    else
      var rest := ClosestDays(counts, days[1..], maxVotes);
      assert forall d :: d in days <==> d == days[0] || d in days[1..];
      assert days == [days[0]] + days[1..];
      if counts[days[0]] == maxVotes then
        KeepFirst(days[0], rest, days[1..]);
        [days[0]] + rest
      else
        DropFirst(days[0], rest, days[1..]);
        rest
  }

  /**
   * The days with the most votes, in order of first appearance in the voters'
   * lists, read voter by voter in the order the voters first voted (a re-vote
   * keeps the voter's place).
   */
  function MostAvailable(v: VoteTable): seq<string>
    requires AllDays(v) != []
  {
    var days := AllDays(v);
    var counts := Tally(v, days);
    ClosestDays(counts, days, MaxCount(counts, days))
  }

  /**
   * What the analysis answers, or None where the source throws: when the
   * single best day has no blockers, `missingDaysByPlayer[day]` is undefined
   * and `.join` raises a TypeError. That day is then in every voter's list,
   * so it can only happen when some day suits everyone.
   */
  function Explain(v: VoteTable): (r: Option<Explanation>)
    ensures r.None? ==> |v| >= 2 && Intersect(DayLists(v)) != []
  {
    if |v| == 0 then Some(NoVotes)
    else if |v| == 1 then Some(OnlyVoter(v[0].voter))
    else if AllDays(v) == [] then Some(NothingSelected)
    else
      var closest := MostAvailable(v);
      if |closest| == 1 then
        var blockers := Blockers(v, closest[0]);
        if blockers == [] then
          UnblockedDayIsCommon(v, closest[0]);
          None
        else Some(ClosestDay(closest[0], blockers))
      else Some(TiedDays(closest))
  }

  /** A day nobody lacks is in the intersection of the voters' lists. */
  lemma UnblockedDayIsCommon(v: VoteTable, day: string)
    requires |v| > 0 && Blockers(v, day) == []
    ensures day in Intersect(DayLists(v))
  {
    NoBlockersIff(v, day);
    IntersectMembership(DayLists(v));
    assert InAll(day, DayLists(v));
  }

  /**
   * The returned text, or None where the source throws. "No players have
   * voted yet." is the answer exactly when nobody has voted.
   */
  function Message(v: VoteTable): (r: Option<string>)
    ensures r == Some("No players have voted yet.") <==> |v| == 0
    ensures r.None? ==> |v| >= 2 && Intersect(DayLists(v)) != []
  {
    match Explain(v)
    case None => None
    case Some(e) => Some(Render(e))
  }

  /**
   * The per-day vote counts, filled day by day (server.js:75-78 and the same
   * loop in the dashboard, server.js:431-434).
   */
  method TallyDays(v: VoteTable, days: seq<string>) returns (counts: map<string, nat>)
    ensures counts == Tally(v, days)
  {
    counts := map[];
    var i := 0;
    while i < |days|
      invariant 0 <= i <= |days|
      invariant counts == Tally(v, days[..i])
    {
      var day := days[i];
      var n := 0;
      var j := 0;
      while j < |v|
        invariant 0 <= j <= |v|
        invariant n == CountOf(v[..j], day)
      {
        assert v[..j + 1][..j] == v[..j];
        if day in v[j].days {
          n := n + 1;
        }
        j := j + 1;
      }
      assert v[..j] == v;
      counts := counts[day := n];
      i := i + 1;
      assert days[..i] == days[..i - 1] + [day];
    }
    assert days[..i] == days;
  }

  /**
   * `missingDaysByPlayer`, filled by the nested loops at server.js:64-72: a
   * day gets an entry only when some voter lacks it, and the entry lists those
   * voters in voter order.
   */
  method CollectBlockers(v: VoteTable, days: seq<string>) returns (missing: map<string, seq<string>>)
    requires NoDuplicates(days)
    ensures forall d :: d in missing <==> d in days && Blockers(v, d) != []
    ensures forall d :: d in missing ==> missing[d] == Blockers(v, d)
  {
    missing := map[];
    var i := 0;
    while i < |days|
      invariant 0 <= i <= |days|
      invariant forall d :: d in missing <==> d in days[..i] && Blockers(v, d) != []
      invariant forall d :: d in missing ==> missing[d] == Blockers(v, d)
    {
      var day := days[i];
      assert day !in days[..i];
      ghost var before := missing;
      var j := 0;
      while j < |v|
        invariant 0 <= j <= |v|
        invariant forall d :: d in missing <==> d in before || (d == day && Blockers(v[..j], day) != [])
        invariant forall d :: d in before ==> missing[d] == before[d]
        invariant day in missing ==> missing[day] == Blockers(v[..j], day)
      {
        assert v[..j + 1][..j] == v[..j];
        if day !in v[j].days {
          var sofar := if day in missing then missing[day] else [];
          missing := missing[day := sofar + [v[j].voter]];
        }
        j := j + 1;
      }
      assert v[..j] == v;
      i := i + 1;
      assert days[..i] == days[..i - 1] + [day];
    }
    assert days[..i] == days;
  }

  /** `analyzeNoCommonDays(game)`: the text, or None where the source throws. */
  method AnalyzeNoCommonDays(v: VoteTable) returns (message: Option<string>)
    ensures message == Message(v)
  {
    if |v| == 0 {
      return Some("No players have voted yet.");
    }
    if |v| == 1 {
      return Some("Only " + v[0].voter + " has voted so far.");
    }
    var allDays := AllDays(v);
    if allDays == [] {
      return Some("Players haven't selected any days.");
    }
    AllDaysMembership(v);
    var missing := CollectBlockers(v, allDays);
    var counts := TallyDays(v, allDays);
    var maxVotes := MaxCount(counts, allDays);
    var closestDays := ClosestDays(counts, allDays, maxVotes);
    if |closestDays| == 1 {
      var day := closestDays[0];
      if day !in missing {
        return None;
      }
      var blockers := missing[day];
      return Some(Render(ClosestDay(day, blockers)));
    } else {
      return Some(Render(TiedDays(closestDays)));
    }
  }

  /**
   * The early answers, in the source's order: nobody voted, exactly one
   * voter (named, whatever they selected), then - with two or more voters -
   * "nothing selected" exactly when every voter's list is empty.
   */
  lemma ExplainPrecedence(v: VoteTable)
    ensures |v| == 0 ==> Message(v) == Some("No players have voted yet.")
    ensures |v| == 1 ==> Message(v) == Some("Only " + v[0].voter + " has voted so far.")
    ensures |v| >= 2 ==>
      (Message(v) == Some("Players haven't selected any days.") <==> forall i :: 0 <= i < |v| ==> v[i].days == [])
  {
    AllDaysEmptyIff(v);
    if |v| >= 2 && AllDays(v) != [] {
      AllDaysMembership(v);
      var closest := MostAvailable(v);
      var text := "Players haven't selected any days.";
      if |closest| == 1 {
        var day := closest[0];
        if Blockers(v, day) != [] {
          var t := Render(ClosestDay(day, Blockers(v, day)));
          assert |t| > |text|;
        }
      } else {
        var t := Render(TiedDays(closest));
        assert t[0] == 'N' && text[0] == 'P';
      }
    }
  }

  /**
   * The filter at the largest count keeps exactly the days no other listed
   * day beats; at least one day survives.
   */
  lemma ClosestAreMaximal(counts: map<string, nat>, days: seq<string>)
    requires days != []
    requires forall i :: 0 <= i < |days| ==> days[i] in counts
    ensures ClosestDays(counts, days, MaxCount(counts, days)) != []
    ensures forall d :: d in ClosestDays(counts, days, MaxCount(counts, days)) <==>
      d in days && forall e :: e in days ==> counts[e] <= counts[d]
  {
    var m := MaxCount(counts, days);
    var i :| 0 <= i < |days| && counts[days[i]] == m;
    assert days[i] in ClosestDays(counts, days, m);
    forall d | d in days && (forall e :: e in days ==> counts[e] <= counts[d])
      ensures counts[d] == m
    {
      assert counts[days[i]] <= counts[d];
      var k :| 0 <= k < |days| && days[k] == d;
      assert counts[days[k]] <= m;
    }
    forall d | d in days && counts[d] == m
      ensures forall e :: e in days ==> counts[e] <= counts[d]
    {
      forall e | e in days ensures counts[e] <= m {
        var k :| 0 <= k < |days| && days[k] == e;
        assert counts[days[k]] <= m;
      }
    }
  }

  /**
   * The closest days are exactly the voted days whose count is the largest
   * count of any voted day; there is at least one, and none is listed twice.
   */
  lemma MostAvailableIsExact(v: VoteTable)
    requires AllDays(v) != []
    ensures MostAvailable(v) != []
    ensures NoDuplicates(MostAvailable(v))
    ensures forall d :: d in MostAvailable(v) <==>
      d in AllDays(v) && forall e :: e in AllDays(v) ==> CountOf(v, e) <= CountOf(v, d)
  {
    var days := AllDays(v);
    var counts := Tally(v, days);
    AllDaysMembership(v);
    ClosestAreMaximal(counts, days);
    forall d | d in days
      ensures (forall e :: e in days ==> counts[e] <= counts[d])
          <==> (forall e :: e in days ==> CountOf(v, e) <= CountOf(v, d))
    {
    }
  }

  /**
   * When a single day is closest, the answer names it with exactly the voters
   * whose list lacks it, saying "are" for several blockers and "is" for one.
   */
  lemma SingleClosestDay(v: VoteTable, day: string, blockers: seq<string>)
    requires Explain(v) == Some(ClosestDay(day, blockers))
    ensures MostAvailable(v) == [day]
    ensures blockers != [] && blockers == Blockers(v, day)
    ensures forall name :: name in blockers <==>
      exists i :: 0 <= i < |v| && v[i].voter == name && day !in v[i].days
    ensures Message(v) == Some(day + " is closest to working, but " + Join(blockers, ", ") + " "
      + (if |blockers| > 1 then "are" else "is") + " not available.")
  {
    BlockersExact(v, day);
  }

  /** Several closest days: the answer offers them all, joined with "or". */
  lemma TiedClosestDays(v: VoteTable, days: seq<string>)
    requires Explain(v) == Some(TiedDays(days))
    ensures |days| >= 2 && days == MostAvailable(v)
    ensures Message(v) == Some("No days work for everyone. Try " + Join(days, " or ")
      + ", which have the most availability.")
  {
    assert AllDays(v) != [];
    MostAvailableIsExact(v);
  }

  /**
   * Forwards: when one voted day has strictly more votes than every other
   * and some voter lacks it, the answer names that day with its blockers.
   */
  lemma SingleTopDayIsNamed(v: VoteTable, d: string)
    requires |v| >= 2 && d in AllDays(v)
    requires forall e :: e in AllDays(v) && e != d ==> CountOf(v, e) < CountOf(v, d)
    requires exists i :: 0 <= i < |v| && d !in v[i].days
    ensures MostAvailable(v) == [d]
    ensures Message(v) == Some(d + " is closest to working, but " + Join(Blockers(v, d), ", ") + " "
      + (if |Blockers(v, d)| > 1 then "are" else "is") + " not available.")
  {
    TopDayIsAlone(v, d);
    NoBlockersIff(v, d);
  }

  lemma TopDayIsAlone(v: VoteTable, d: string)
    requires d in AllDays(v)
    requires forall e :: e in AllDays(v) && e != d ==> CountOf(v, e) < CountOf(v, d)
    ensures MostAvailable(v) == [d]
  {
    MostAvailableIsExact(v);
    var m := MostAvailable(v);
    assert forall x :: x in m ==> x == d;
    SingletonOfRepeats(m, d);
  }

  /** A list without repeats that holds `d` and nothing else is `[d]`. */
  lemma SingletonOfRepeats(m: seq<string>, d: string)
    requires NoDuplicates(m) && d in m
    requires forall x :: x in m ==> x == d
    ensures m == [d]
  {
    FirstTwoDiffer(m);
    assert m[0] in m;
    assert |m| == 1;
  }

  lemma FirstTwoDiffer(m: seq<string>)
    ensures |m| >= 2 && NoDuplicates(m) ==> m[0] in m && m[1] in m && m[0] != m[1]
  {
  }

  /**
   * Forwards: when two different voted days share the largest count, the
   * answer offers every day with that count, joined with "or".
   */
  lemma TiedTopDaysAreOffered(v: VoteTable, d1: string, d2: string)
    requires |v| >= 2 && d1 in AllDays(v) && d2 in AllDays(v) && d1 != d2
    requires CountOf(v, d1) == CountOf(v, d2)
    requires forall e :: e in AllDays(v) ==> CountOf(v, e) <= CountOf(v, d1)
    ensures d1 in MostAvailable(v) && d2 in MostAvailable(v)
    ensures Message(v) == Some("No days work for everyone. Try " + Join(MostAvailable(v), " or ")
      + ", which have the most availability.")
  {
    MostAvailableIsExact(v);
    var m := MostAvailable(v);
    var i :| 0 <= i < |m| && m[i] == d1;
    var j :| 0 <= j < |m| && m[j] == d2;
    assert i != j;
    assert |m| >= 2;
  }

  /**
   * The dashboard calls the analysis only with voters and no common day
   * (server.js:500-506); then it never throws: a best day without blockers
   * would be in every list, hence in the intersection.
   */
  lemma NoCommonDayNeverThrows(v: VoteTable)
    requires |v| > 0 && Intersect(DayLists(v)) == []
    ensures Explain(v).Some?
    ensures Message(v).Some?
  {
    if |v| >= 2 && AllDays(v) != [] {
      var closest := MostAvailable(v);
      if |closest| == 1 {
        var day := closest[0];
        IntersectMembership(DayLists(v));
        assert !InAll(day, DayLists(v));
        var i :| 0 <= i < |DayLists(v)| && day !in DayLists(v)[i];
        assert day !in v[i].days;
        NoBlockersIff(v, day);
      }
    }
  }
}
