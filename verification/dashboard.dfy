/**
 * What the GM game page computes before it renders (server.js:424-506): the
 * days every voter shares, each voted day's count, total and band, the band
 * of the scheduled day, and which analysis is shown. The HTML itself is not
 * modelled.
 */
module Dashboard {
  import opened Wrappers
  import opened Text
  import opened Votes
  import opened Intersection
  import opened MatchScore
  import opened Divergence

  datatype DayScore = DayScore(day: string, matchCount: nat, totalPlayers: nat, band: Band)

  datatype Analysis =
    | PerfectMatch(days: seq<string>)
    | NoPerfectMatch(explanation: string)
    | NoAnalysis

  datatype View = View(common: seq<string>, scores: seq<DayScore>, scheduledBand: Option<Band>, analysis: Analysis)

  /** JavaScript truthiness of an optional string (undefined, null and "" are falsy). */
  predicate IsSet(s: Option<string>)
  {
    s.Some? && Truthy(s.value)
  }

  /** Everything the page shows about the votes, for a game's votes and scheduled day. */
  ghost predicate Describes(view: View, v: VoteTable, scheduledDay: Option<string>)
  {
    var days := AllDays(v);
    && view.common == Intersect(DayLists(v))
    && |view.scores| == |days|
    && (forall i :: 0 <= i < |days| ==>
          && view.scores[i].day == days[i]
          && view.scores[i].matchCount == CountOf(v, days[i])
          && view.scores[i].totalPlayers == |v|
          && view.scores[i].band == MatchBand(view.scores[i].matchCount, |v|)
          && 1 <= view.scores[i].matchCount <= |v|
          && view.scores[i].matchCount + |Blockers(v, days[i])| == |v|)
    && view.scheduledBand ==
         (if days != [] && IsSet(scheduledDay) then
            Some(MatchBandOf(if scheduledDay.value in days then Some(CountOf(v, scheduledDay.value)) else None, |v|))
          else None)
    && (view.common != [] ==> view.analysis == PerfectMatch(view.common))
    && (view.common == [] && |v| > 0 ==>
          Explain(v).Some? && view.analysis == NoPerfectMatch(Render(Explain(v).value)))
    && (|v| == 0 ==> view.analysis == NoAnalysis)
  }

  /** The GM page's computation for one game's votes. */
  method GmView(v: VoteTable, scheduledDay: Option<string>) returns (view: View)
    ensures Describes(view, v, scheduledDay)
  {
    var total := |v|;
    var common := Intersect(DayLists(v));
    var allDays := AllDays(v);
    var counts := TallyDays(v, allDays);
    var scores := seq(|allDays|, i requires 0 <= i < |allDays| =>
      DayScore(allDays[i], counts[allDays[i]], total, MatchBand(counts[allDays[i]], total)));
    forall i | 0 <= i < |allDays|
      ensures 1 <= CountOf(v, allDays[i]) <= total
      ensures CountOf(v, allDays[i]) + |Blockers(v, allDays[i])| == total
    {
      CountBounds(v, allDays[i]);
      CountPlusBlockers(v, allDays[i]);
    }
    var scheduledBand := None;
    if allDays != [] && IsSet(scheduledDay) {
      var day := scheduledDay.value;
      var count := if day in counts then Some(counts[day]) else None;
      scheduledBand := Some(MatchBandOf(count, total));
    }
    var analysis;
    if common != [] {
      analysis := PerfectMatch(common);
    } else if total > 0 {
      NoCommonDayNeverThrows(v);
      var message := AnalyzeNoCommonDays(v);
      analysis := NoPerfectMatch(message.value);
    } else {
      analysis := NoAnalysis;
    }
    view := View(common, scores, scheduledBand, analysis);
  }
}
