/**
 * A game's `votes` object: player name -> list of day labels.
 *
 * A JavaScript object keeps its keys in insertion order, and that order is
 * visible everywhere the core reads `Object.keys(votes)` or
 * `Object.values(votes)`. The object is therefore modelled as an ordered
 * association list whose voters are distinct. Day labels are plain strings:
 * the vote handler neither validates nor deduplicates them.
 */
module Votes {
  import opened Wrappers
  import opened Subsequences

  datatype Ballot = Ballot(voter: string, days: seq<string>)

  type VoteTable = seq<Ballot>

  predicate NoDuplicates(s: seq<string>)
  {
    forall i, j :: 0 <= i < j < |s| ==> s[i] != s[j]
  }

  /** `Object.keys(votes)`. */
  function Voters(v: VoteTable): (r: seq<string>)
    ensures |r| == |v|
    ensures forall i :: 0 <= i < |v| ==> r[i] == v[i].voter
  {
    seq(|v|, i requires 0 <= i < |v| => v[i].voter)
  }

  /** `Object.values(votes)`. */
  function DayLists(v: VoteTable): (r: seq<seq<string>>)
    ensures |r| == |v|
    ensures forall i :: 0 <= i < |v| ==> r[i] == v[i].days
  {
    seq(|v|, i requires 0 <= i < |v| => v[i].days)
  }

  /** The representation invariant: an object has no repeated key. */
  predicate DistinctVoters(v: VoteTable)
  {
    NoDuplicates(Voters(v))
  }

  /** `votes[name]`, undefined when the player has not voted. */
  function Lookup(v: VoteTable, name: string): (r: Option<seq<string>>)
    ensures r.None? <==> name !in Voters(v)
    ensures r.Some? ==> exists i :: 0 <= i < |v| && v[i] == Ballot(name, r.value)
  {
    if v == [] then None
    else if v[0].voter == name then Some(v[0].days)
    else Lookup(v[1..], name)
  }

  /**
   * `votes[name] = days`: an existing key keeps its position and gets the new
   * value; a new key goes to the end.
   */
  function SetVote(v: VoteTable, name: string, days: seq<string>): (r: VoteTable)
    ensures Voters(r) == if name in Voters(v) then Voters(v) else Voters(v) + [name]
    ensures Lookup(r, name) == Some(days)
    ensures forall other :: other != name ==> Lookup(r, other) == Lookup(v, other)
  {
    if v == [] then [Ballot(name, days)]
    else if v[0].voter == name then [Ballot(name, days)] + v[1..]
    else
      var rest := SetVote(v[1..], name, days);
      VotersCons(v[0], v[1..]);
      VotersCons(v[0], rest);
      assert v == [v[0]] + v[1..];
      [v[0]] + rest
  }

  /** `Voters` of a table with one more entry in front. */
  lemma VotersCons(b: Ballot, rest: VoteTable)
    ensures Voters([b] + rest) == [b.voter] + Voters(rest)
  {
  }

  /** `delete votes[name]`. */
  function RemoveVoter(v: VoteTable, name: string): (r: VoteTable)
    ensures Lookup(r, name) == None
    ensures forall other :: other != name ==> Lookup(r, other) == Lookup(v, other)
    ensures forall i :: 0 <= i < |r| ==> r[i] in v
    ensures IsSubsequence(r, v)
  {
    if v == [] then []
    else
      var rest := RemoveVoter(v[1..], name);
      assert v == [v[0]] + v[1..];
      if v[0].voter == name then
        DropFirst(v[0], rest, v[1..]);
        rest
      else
        KeepFirst(v[0], rest, v[1..]);
        [v[0]] + rest
  }

  /** The voters whose list includes `day`, in voter order. */
  function Supporters(v: VoteTable, day: string): seq<string>
  {
    if v == [] then []
    else Supporters(v[..|v| - 1], day) + (if day in v[|v| - 1].days then [v[|v| - 1].voter] else [])
  }

  /** The voters whose list lacks `day` (its blockers), in voter order. */
  function Blockers(v: VoteTable, day: string): seq<string>
  {
    if v == [] then []
    else Blockers(v[..|v| - 1], day) + (if day in v[|v| - 1].days then [] else [v[|v| - 1].voter])
  }

  /** `players.filter(p => votes[p].includes(day)).length`. */
  function CountOf(v: VoteTable, day: string): nat
  {
    |Supporters(v, day)|
  }

  /** `Object.values(votes).flat()`. */
  function Flatten(v: VoteTable): seq<string>
  {
    if v == [] then [] else Flatten(v[..|v| - 1]) + v[|v| - 1].days
  }

  /** `[...new Set(s)]`: first occurrences, in order. */
  function Dedup(s: seq<string>): seq<string>
  {
    if s == [] then []
    else
      var d := Dedup(s[..|s| - 1]);
      if s[|s| - 1] in d then d else d + [s[|s| - 1]]
  }

  /** The position of the first occurrence of `x` in `s`. */
  function FirstIndex(s: seq<string>, x: string): (r: nat)
    requires x in s
    ensures r < |s| && s[r] == x
    ensures forall k :: 0 <= k < r ==> s[k] != x
  {
    if s[0] == x then 0 else 1 + FirstIndex(s[1..], x)
  }

  /** Every day that at least one voter selected, in order of first appearance. */
  function AllDays(v: VoteTable): seq<string>
  {
    Dedup(Flatten(v))
  }

  lemma {:induction false} DedupIsSetOfDistinct(s: seq<string>)
    ensures forall x :: x in Dedup(s) <==> x in s
    ensures NoDuplicates(Dedup(s))
  {
    if s != [] {
      DedupIsSetOfDistinct(s[..|s| - 1]);
      assert s == s[..|s| - 1] + [s[|s| - 1]];
    }
  }

  /** A first occurrence within a prefix is the first occurrence in the whole list. */
  lemma FirstIndexInPrefix(p: seq<string>, s: seq<string>, x: string)
    requires |p| <= |s| && s[..|p|] == p && x in p
    ensures FirstIndex(s, x) == FirstIndex(p, x)
  {
    var a := FirstIndex(p, x);
    assert s[a] == p[a];
  }

  /** Every element of `d` occurs in `s`, and earlier elements of `d` first occur earlier in `s`. */
  predicate InFirstAppearanceOrder(d: seq<string>, s: seq<string>)
  {
    forall i, j :: 0 <= i < j < |d| ==> d[i] in s && d[j] in s && FirstIndex(s, d[i]) < FirstIndex(s, d[j])
  }

  /**
   * `[...new Set(s)]` lists the distinct elements by their first appearance
   * in `s`: an earlier element first occurs earlier.
   */
  lemma {:induction false} DedupFirstAppearance(s: seq<string>)
    ensures InFirstAppearanceOrder(Dedup(s), s)
  {
    if s != [] {
      var p := s[..|s| - 1];
      var x := s[|s| - 1];
      var d := Dedup(p);
      DedupFirstAppearance(p);
      DedupIsSetOfDistinct(p);
      assert s[..|p|] == p;
      forall y | y in p ensures FirstIndex(s, y) == FirstIndex(p, y) {
        FirstIndexInPrefix(p, s, y);
      }
      var r := Dedup(s);
      assert r == d || (x !in p && r == d + [x]);
      if x !in p {
        assert FirstIndex(s, x) == |p|;
      }
      forall i, j | 0 <= i < j < |r|
        ensures r[i] in s && r[j] in s && FirstIndex(s, r[i]) < FirstIndex(s, r[j])
      {
        assert r[i] == d[i] && d[i] in p;
        if j < |d| {
          assert r[j] == d[j] && d[j] in p;
        } else {
          assert r[j] == x;
        }
      }
    }
  }

  lemma {:induction false} FlattenMembership(v: VoteTable, day: string)
    ensures day in Flatten(v) <==> exists i :: 0 <= i < |v| && day in v[i].days
  {
    if v != [] {
      var init := v[..|v| - 1];
      FlattenMembership(init, day);
      if day in Flatten(v) && day !in v[|v| - 1].days {
        var i :| 0 <= i < |init| && day in init[i].days;
        assert v[i] == init[i];
      }
      if exists i :: 0 <= i < |v| && day in v[i].days {
        var i :| 0 <= i < |v| && day in v[i].days;
        if i < |v| - 1 {
          assert init[i] == v[i];
        }
      }
    }
  }

  /**
   * A day is in `AllDays` exactly when some voter selected it, and `AllDays`
   * lists each such day once.
   */
  lemma AllDaysMembership(v: VoteTable)
    ensures NoDuplicates(AllDays(v))
    ensures forall day :: day in AllDays(v) <==> exists i :: 0 <= i < |v| && day in v[i].days
  {
    DedupIsSetOfDistinct(Flatten(v));
    forall day ensures day in AllDays(v) <==> exists i :: 0 <= i < |v| && day in v[i].days {
      FlattenMembership(v, day);
    }
  }

  /** `AllDays` is empty exactly when every voter's list is empty. */
  lemma AllDaysEmptyIff(v: VoteTable)
    ensures AllDays(v) == [] <==> forall i :: 0 <= i < |v| ==> v[i].days == []
  {
    AllDaysMembership(v);
    if exists i :: 0 <= i < |v| && v[i].days != [] {
      var i :| 0 <= i < |v| && v[i].days != [];
      assert v[i].days[0] in AllDays(v);
    }
    if AllDays(v) != [] {
      assert AllDays(v)[0] in AllDays(v);
    }
  }

  /**
   * Every voter either includes a day or blocks it, never both: the day's
   * count plus its number of blockers is the number of voters.
   */
  lemma {:induction false} CountPlusBlockers(v: VoteTable, day: string)
    ensures CountOf(v, day) + |Blockers(v, day)| == |v|
  {
    if v != [] {
      CountPlusBlockers(v[..|v| - 1], day);
    }
  }

  /** A voter blocks a day exactly when their list lacks it. */
  lemma {:induction false} BlockersExact(v: VoteTable, day: string)
    ensures forall name :: name in Blockers(v, day) <==>
      exists i :: 0 <= i < |v| && v[i].voter == name && day !in v[i].days
  {
    if v != [] {
      var init := v[..|v| - 1];
      BlockersExact(init, day);
      forall name ensures name in Blockers(v, day) <==>
        exists i :: 0 <= i < |v| && v[i].voter == name && day !in v[i].days
      {
        if name in Blockers(init, day) {
          var i :| 0 <= i < |init| && init[i].voter == name && day !in init[i].days;
          assert v[i] == init[i];
        }
        if exists i :: 0 <= i < |v| && v[i].voter == name && day !in v[i].days {
          var i :| 0 <= i < |v| && v[i].voter == name && day !in v[i].days;
          if i < |v| - 1 {
            assert init[i] == v[i];
          }
        }
      }
    }
  }

  /** A day has no blockers exactly when every voter's list includes it. */
  lemma NoBlockersIff(v: VoteTable, day: string)
    ensures Blockers(v, day) == [] <==> forall i :: 0 <= i < |v| ==> day in v[i].days
  {
    BlockersExact(v, day);
    if Blockers(v, day) != [] {
      assert Blockers(v, day)[0] in Blockers(v, day);
    }
  }

  /** A day is counted by as many voters as there are: 0 <= count <= voters. */
  lemma CountBounds(v: VoteTable, day: string)
    ensures CountOf(v, day) <= |v|
    ensures day in AllDays(v) ==> CountOf(v, day) >= 1
  {
    CountPlusBlockers(v, day);
    if day in AllDays(v) {
      AllDaysMembership(v);
      var i :| 0 <= i < |v| && day in v[i].days;
      BlockersCoverAll(v, day, i);
    }
  }

  /** A day that some voter selected has fewer blockers than there are voters. */
  lemma {:induction false} BlockersCoverAll(v: VoteTable, day: string, i: nat)
    requires i < |v| && day in v[i].days
    ensures |Blockers(v, day)| < |v|
  {
    var init := v[..|v| - 1];
    if i == |v| - 1 {
      CountPlusBlockers(init, day);
    } else {
      assert init[i] == v[i];
      BlockersCoverAll(init, day, i);
    }
  }

  /** Replacing a vote with the value it already has changes nothing. */
  lemma {:induction false} SetVoteIdempotent(v: VoteTable, name: string, days: seq<string>)
    ensures SetVote(SetVote(v, name, days), name, days) == SetVote(v, name, days)
  {
    if v != [] && v[0].voter != name {
      SetVoteIdempotent(v[1..], name, days);
    }
  }

  /** Voting keeps the voters distinct. */
  lemma SetVoteKeepsDistinct(v: VoteTable, name: string, days: seq<string>)
    requires DistinctVoters(v)
    ensures DistinctVoters(SetVote(v, name, days))
  {
  }

  /** Removing a voter keeps the remaining voters distinct (`RemoveVoter` keeps their order). */
  lemma {:induction false} RemoveVoterKeepsDistinct(v: VoteTable, name: string)
    requires DistinctVoters(v)
    ensures DistinctVoters(RemoveVoter(v, name))
    ensures name !in Voters(RemoveVoter(v, name))
  {
    if v != [] {
      VotersCons(v[0], v[1..]);
      assert v == [v[0]] + v[1..];
      NoDuplicatesCons(v[0].voter, Voters(v[1..]));
      RemoveVoterKeepsDistinct(v[1..], name);
      var rest := RemoveVoter(v[1..], name);
      if v[0].voter != name {
        VotersCons(v[0], rest);
        assert v[0].voter !in Voters(rest) by {
          forall i | 0 <= i < |rest| ensures rest[i].voter != v[0].voter {
            var k :| 0 <= k < |v[1..]| && v[1..][k] == rest[i];
            assert Voters(v[1..])[k] == rest[i].voter;
          }
        }
        NoDuplicatesCons(v[0].voter, Voters(rest));
      }
    }
  }

  /** A list with one more element in front is free of repeats exactly when the tail is and lacks it. */
  lemma NoDuplicatesCons(x: string, s: seq<string>)
    ensures NoDuplicates([x] + s) <==> x !in s && NoDuplicates(s)
  {
    if NoDuplicates([x] + s) {
      forall i, j | 0 <= i < j < |s| ensures s[i] != s[j] {
        assert s[i] == ([x] + s)[i + 1] && s[j] == ([x] + s)[j + 1];
      }
      forall k | 0 <= k < |s| ensures s[k] != x {
        assert ([x] + s)[0] == x && ([x] + s)[k + 1] == s[k];
      }
    }
  }
}
