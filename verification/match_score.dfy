/**
 * `getMatchColor(matchCount, totalPlayers)` (server.js:32-42): the share of
 * voters available on a day, put into one of six colour bands, or a neutral
 * colour when nobody has voted. The source divides in floating point and
 * compares with 1, 0.8, 0.6, 0.4 and 0.2; here each comparison
 * `m / t >= k / 5` is the exact integer comparison `5 * m >= k * t`.
 */
module MatchScore {
  import opened Wrappers

  datatype Band = Neutral | Full | High | ModerateHigh | Moderate | Low | Minimal

  /**
   * The colour the dashboard paints for each band: a CSS hex colour, and the
   * neutral grey exactly when nobody has voted.
   */
  function Color(b: Band): (r: string)
    ensures (|r| == 4 || |r| == 7) && r[0] == '#'
    ensures r == "#666" <==> b.Neutral?
  {
    match b
    case Neutral => "#666"
    case Full => "#4CAF50"
    case High => "#8BC34A"
    case ModerateHigh => "#FFEB3B"
    case Moderate => "#FF9800"
    case Low => "#FF5722"
    case Minimal => "#F44336"
  }

  /** Different bands are painted in different colours. */
  lemma ColorsDistinct(b1: Band, b2: Band)
    requires b1 != b2
    ensures Color(b1) != Color(b2)
  {
  }

  /** The lower bound of a band, in fifths of the voters. */
  function Fifths(b: Band): nat
    requires !b.Neutral?
  {
    match b
    case Full => 5
    case High => 4
    case ModerateHigh => 3
    case Moderate => 2
    case Low => 1
    case Minimal => 0
  }

  function MatchBand(matchCount: nat, totalPlayers: nat): (r: Band)
    ensures r.Neutral? <==> totalPlayers == 0
  {
    if totalPlayers == 0 then Neutral
    else if matchCount == totalPlayers then Full
    else if 5 * matchCount >= 4 * totalPlayers then High
    else if 5 * matchCount >= 3 * totalPlayers then ModerateHigh
    else if 5 * matchCount >= 2 * totalPlayers then Moderate
    else if 5 * matchCount >= totalPlayers then Low
    else Minimal
  }

  /**
   * `getMatchColor(dayMatchCounts[day], totalPlayers)` for a day that may have
   * no count: `undefined / t` is NaN, every comparison with NaN is false, and
   * the chain falls through to the lowest band.
   */
  function MatchBandOf(matchCount: Option<nat>, totalPlayers: nat): (r: Band)
    ensures totalPlayers > 0 && matchCount.None? ==> r == Minimal
    ensures matchCount.Some? ==> r == MatchBand(matchCount.value, totalPlayers)
  {
    if totalPlayers == 0 then Neutral
    else match matchCount
      case None => Minimal
      case Some(m) => MatchBand(m, totalPlayers)
  }

  /**
   * For a count no larger than the number of voters, the band is the
   * fraction rounded down to fifths: its lower bound is at most m/t and, below
   * a full match, the next fifth is above m/t.
   */
  lemma BandBracketsFraction(m: nat, t: nat)
    requires 0 < t && m <= t
    ensures Fifths(MatchBand(m, t)) * t <= 5 * m
    ensures m < t ==> 5 * m < (Fifths(MatchBand(m, t)) + 1) * t
  {
    var k := Fifths(MatchBand(m, t));
    match MatchBand(m, t)
    case Full => assert k * t == 5 * t;
    case High => assert k * t == 4 * t;
    case ModerateHigh => assert k * t == 3 * t;
    case Moderate => assert k * t == 2 * t;
    case Low => assert k * t == t;
    case Minimal => assert k * t == 0;
  }

  /** All voters available on the day: the full-match band. */
  lemma EveryoneIsFull(t: nat)
    requires t > 0
    ensures MatchBand(t, t) == Full
  {
  }

  /** No voter available: the lowest band. */
  lemma NobodyIsMinimal(t: nat)
    requires t > 0
    ensures MatchBand(0, t) == Minimal
  {
  }

  /** More available voters, for the same total, never give a lower band. */
  lemma BandMonotone(m1: nat, m2: nat, t: nat)
    requires 0 < t && m1 <= m2 <= t
    ensures Fifths(MatchBand(m1, t)) <= Fifths(MatchBand(m2, t))
  {
  }

  /**
   * Counts above the total (which the dashboard never produces) are not
   * Full: the source's `percentage === 1` test fails and `>= 0.8` holds.
   */
  lemma AboveTotalIsHigh(m: nat, t: nat)
    requires 0 < t < m
    ensures MatchBand(m, t) == High
  {
  }
}
