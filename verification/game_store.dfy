/**
 * The in-memory `games` and `users` objects and the request handlers that
 * change them (server.js:323-333, 366-374, 396-412, 414-422, 545-598).
 * Saving to disk happens after each change and is not modelled; the
 * in-memory maps are the state. A handler that would throw a TypeError
 * (reading a field of a missing game or user) reports `ok == false`, and the
 * state is what the handler had changed before it threw.
 */
module GameStore {
  import opened Wrappers
  import opened Subsequences
  import opened Votes
  import opened Text
  import opened Notification
  import opened Dashboard

  datatype Game = Game(
    name: string,
    owner: string,
    votes: VoteTable,
    players: seq<string>,
    effect: string,
    webhookUrl: Option<string>,
    scheduledDay: Option<string>)

  /** A user record; the password hash is not modelled. */
  datatype User = User(email: string, isGM: bool, games: seq<string>)

  /** A form field as body-parser delivers it: absent, one value, or repeated. */
  datatype FormField = Absent | One(value: string) | Many(values: seq<string>)

  /** `s || null` for a form string ("" when the field is absent). */
  function OrNull(s: string): (r: Option<string>)
    ensures r.None? <==> s == ""
    ensures r.Some? ==> r.value == s
  {
    if Truthy(s) then Some(s) else None
  }

  /**
   * `let days = req.body.days || []; if (!Array.isArray(days)) days = [days];`
   * An empty single value is falsy and becomes `[]`.
   */
  function SubmittedDays(f: FormField): (r: seq<string>)
    ensures f.Many? ==> r == f.values
    ensures f.One? && f.value != "" ==> r == [f.value]
    ensures f.Absent? || f == One("") ==> r == []
  {
    match f
    case Absent => []
    case One(s) => if Truthy(s) then [s] else []
    case Many(xs) => xs
  }

  /** `list.filter(x => x !== drop)`. */
  function FilterOut(s: seq<string>, drop: string): (r: seq<string>)
    ensures drop !in r
    ensures forall x :: x != drop ==> (x in r <==> x in s)
    ensures NoDuplicates(s) ==> NoDuplicates(r)
    ensures drop !in s ==> r == s
    ensures IsSubsequence(r, s)
    ensures forall x :: x != drop ==> multiset(r)[x] == multiset(s)[x]
  {
    if s == [] then []
    else
      var rest := FilterOut(s[1..], drop);
      assert s == [s[0]] + s[1..];
      assert multiset(s) == multiset{s[0]} + multiset(s[1..]);
      if s[0] == drop then
        DropFirst(s[0], rest, s[1..]);
        rest
      else
        assert forall x :: x in s <==> x == s[0] || x in s[1..];
        assert NoDuplicates(s) ==> NoDuplicates(s[1..]) && s[0] !in s[1..];
        assert multiset([s[0]] + rest) == multiset{s[0]} + multiset(rest);
        KeepFirst(s[0], rest, s[1..]);
        [s[0]] + rest
  }

  /** The game record `POST /gm/create` stores. */
  function NewGame(name: string, owner: string, effect: string, webhookUrl: string): Game
  {
    Game(name, owner, [], [], if Truthy(effect) then effect else "none", OrNull(webhookUrl), None)
  }

  /** `votes[name] = days`. */
  function Voted(g: Game, name: string, days: seq<string>): Game
  {
    g.(votes := SetVote(g.votes, name, days))
  }

  /** `game.scheduledDay = scheduledDay`, whatever it is. */
  function Scheduled(g: Game, day: Option<string>): Game
  {
    g.(scheduledDay := day)
  }

  /** `sendDiscordWebhook(game, day, mention)`: nothing without a webhook address. */
  function DiscordNotice(g: Game, day: string, mention: string): (r: Option<Notice>)
    ensures r.Some? <==> IsSet(g.webhookUrl)
    ensures r.Some? ==>
      r.value.url == g.webhookUrl.value && r.value.content == FullMessage(mention, BaseMessage(g.name, day, g.players))
  {
    if IsSet(g.webhookUrl) then
      Some(Notice(g.webhookUrl.value, FullMessage(mention, BaseMessage(g.name, day, g.players))))
    else None
  }

  /** The schedule handler sends only for a non-empty day and a configured address. */
  function ScheduleNotice(g: Game, day: Option<string>, mention: string): (r: Option<Notice>)
    ensures r.Some? <==> IsSet(day) && IsSet(g.webhookUrl)
    ensures r.Some? ==> r == DiscordNotice(g, day.value, mention)
  {
    if IsSet(day) && IsSet(g.webhookUrl) then DiscordNotice(g, day.value, mention) else None
  }

  /** `game.webhookUrl = req.body.webhookUrl || null`. */
  function WithWebhook(g: Game, url: string): Game
  {
    g.(webhookUrl := OrNull(url))
  }

  /** `game.players.push(u)`. */
  function WithPlayer(g: Game, u: string): Game
  {
    g.(players := g.players + [u])
  }

  /** `game.votes = {}`. */
  function Reset(g: Game): Game
  {
    g.(votes := [])
  }

  /** A deleted user's traces in one game: off the roster and out of the votes. */
  function WithoutUser(g: Game, u: string): Game
  {
    g.(players := FilterOut(g.players, u), votes := RemoveVoter(g.votes, u))
  }

  /** A deleted game's id, removed from one user's list. */
  function WithoutGame(user: User, id: string): User
  {
    user.(games := FilterOut(user.games, id))
  }

  /** Every game's votes keep one entry per voter, and no player is on a roster twice. */
  ghost predicate ValidGames(games: map<string, Game>)
  {
    forall id :: id in games ==> DistinctVoters(games[id].votes) && NoDuplicates(games[id].players)
  }

  /**
   * A vote sets the voter's entry to the submitted list, leaves every other
   * voter's entry and every other field alone, and the same vote twice is the
   * same as once.
   */
  lemma VoteReplacesOneEntry(g: Game, name: string, days: seq<string>)
    ensures Lookup(Voted(g, name, days).votes, name) == Some(days)
    ensures forall other :: other != name ==> Lookup(Voted(g, name, days).votes, other) == Lookup(g.votes, other)
    ensures Voted(g, name, days).(votes := g.votes) == g
    ensures Voted(Voted(g, name, days), name, days) == Voted(g, name, days)
  {
    SetVoteIdempotent(g.votes, name, days);
  }

  /** A deleted user is on no roster and has no vote; everyone else keeps theirs. */
  lemma DeleteUserRemovesTraces(g: Game, u: string)
    ensures u !in WithoutUser(g, u).players
    ensures u !in Voters(WithoutUser(g, u).votes)
    ensures forall p :: p != u ==> (p in WithoutUser(g, u).players <==> p in g.players)
    ensures forall p :: p != u ==> Lookup(WithoutUser(g, u).votes, p) == Lookup(g.votes, p)
  {
    assert Lookup(RemoveVoter(g.votes, u), u) == None;
  }

  /** Assigning a player who is not yet on the roster creates no duplicate. */
  lemma AssignNoDuplicates(g: Game, u: string)
    requires u !in g.players && NoDuplicates(g.players)
    ensures NoDuplicates(WithPlayer(g, u).players)
    ensures u in WithPlayer(g, u).players
  {
  }

  /** Scheduling a day and then nothing leaves the game unscheduled. */
  lemma ScheduleThenClear(g: Game, day: string)
    ensures Scheduled(Scheduled(g, Some(day)), None).scheduledDay == None
    ensures Scheduled(Scheduled(g, Some(day)), None).(scheduledDay := g.scheduledDay) == g
  {
  }

  class Store {
    var games: map<string, Game>
    var users: map<string, User>
    /** The notifications posted so far, oldest first. */
    var outbox: seq<Notice>

    ghost predicate Valid()
      reads this
    {
      ValidGames(games)
    }

    /** The state `loadJSON` produced at start-up. */
    constructor (games0: map<string, Game>, users0: map<string, User>)
      requires ValidGames(games0)
      ensures Valid()
      ensures games == games0 && users == users0 && outbox == []
    {
      games := games0;
      users := users0;
      outbox := [];
    }

    /** `POST /game/:id/vote` (server.js:366-374): no access check, the voter name comes from the form. */
    method SubmitVote(id: string, name: string, days: FormField) returns (ok: bool)
      requires Valid()
      modifies this
      ensures Valid()
      ensures ok <==> id in old(games)
      ensures ok ==> games == old(games)[id := Voted(old(games)[id], name, SubmittedDays(days))]
      ensures !ok ==> games == old(games)
      ensures users == old(users) && outbox == old(outbox)
    {
      if id !in games {
        return false;
      }
      SetVoteKeepsDistinct(games[id].votes, name, SubmittedDays(days));
      games := games[id := Voted(games[id], name, SubmittedDays(days))];
      ok := true;
    }

    /**
     * `POST /gm/create` (server.js:396-412) with the id taken as a parameter.
     * An existing game with the same id is replaced. An actor without a user
     * record makes the handler throw after the game is stored; the `!ok`
     * branch covers that case, which the requireLogin and requireGM checks in
     * front of the handler (server.js:123-124) keep from happening.
     */
    method CreateGame(gid: string, actor: string, name: string, effect: string, webhookUrl: string) returns (ok: bool)
      requires Valid()
      modifies this
      ensures Valid()
      ensures games == old(games)[gid := NewGame(name, actor, effect, webhookUrl)]
      ensures ok <==> actor in old(users)
      ensures ok ==> users == old(users)[actor := old(users)[actor].(games := old(users)[actor].games + [gid])]
      ensures !ok ==> users == old(users)
      ensures outbox == old(outbox)
    {
      games := games[gid := NewGame(name, actor, effect, webhookUrl)];
      if actor !in users {
        return false;
      }
      users := users[actor := users[actor].(games := users[actor].games + [gid])];
      ok := true;
    }

    /** `GET /gm/game/:id` (server.js:415-506): only the game's owner sees it. */
    method GmDashboard(id: string, actor: string) returns (view: Option<View>)
      ensures view.Some? <==> id in games && games[id].owner == actor
      ensures view.Some? ==> Describes(view.value, games[id].votes, games[id].scheduledDay)
    {
      if id !in games || games[id].owner != actor {
        return None;
      }
      var v := GmView(games[id].votes, games[id].scheduledDay);
      view := Some(v);
    }

    /** `POST /gm/game/:id/webhook` (server.js:546-553): owner only. */
    method UpdateWebhook(id: string, actor: string, url: string)
      requires Valid()
      modifies this
      ensures Valid()
      ensures id in old(games) && old(games)[id].owner == actor ==>
        games == old(games)[id := WithWebhook(old(games)[id], url)]
      ensures !(id in old(games) && old(games)[id].owner == actor) ==> games == old(games)
      ensures users == old(users) && outbox == old(outbox)
    {
      if id in games && games[id].owner == actor {
        games := games[id := WithWebhook(games[id], url)];
      }
    }

    /**
     * `POST /gm/game/:id/schedule` (server.js:556-571): owner only; stores the
     * submitted day as it is, without consulting the votes, and posts a
     * notification when the day is non-empty and a webhook address is set.
     */
    method Schedule(id: string, actor: string, day: Option<string>, mention: string)
      requires Valid()
      modifies this
      ensures Valid()
      ensures id in old(games) && old(games)[id].owner == actor ==>
        && games == old(games)[id := Scheduled(old(games)[id], day)]
        && outbox == old(outbox) + (match ScheduleNotice(games[id], day, mention)
                                    case None => []
                                    case Some(n) => [n])
      ensures !(id in old(games) && old(games)[id].owner == actor) ==> games == old(games) && outbox == old(outbox)
      ensures users == old(users)
    {
      if id in games && games[id].owner == actor {
        games := games[id := Scheduled(games[id], day)];
        if IsSet(day) && IsSet(games[id].webhookUrl) {
          var notice := DiscordNotice(games[id], day.value, mention);
          outbox := outbox + [notice.value];
        }
      }
    }

    /**
     * `POST /gm/game/:id/assign` (server.js:573-582): no owner check; a player
     * already on the roster is not added again. For a name without a user
     * record the roster is extended and then the handler throws.
     */
    method Assign(id: string, u: string) returns (ok: bool)
      requires Valid()
      modifies this
      ensures Valid()
      ensures id in old(games) && u !in old(games)[id].players ==>
        && games == old(games)[id := WithPlayer(old(games)[id], u)]
        && (ok <==> u in old(users))
        && (ok ==> users == old(users)[u := old(users)[u].(games := old(users)[u].games + [id])])
        && (!ok ==> users == old(users))
      ensures !(id in old(games) && u !in old(games)[id].players) ==> ok && games == old(games) && users == old(users)
      ensures outbox == old(outbox)
    {
      ok := true;
      if id in games && u !in games[id].players {
        AssignNoDuplicates(games[id], u);
        games := games[id := WithPlayer(games[id], u)];
        if u !in users {
          return false;
        }
        users := users[u := users[u].(games := users[u].games + [id])];
      }
    }

    /** `POST /gm/game/:id/reset` (server.js:584-589): no owner check; throws for a missing game. */
    method ResetVotes(id: string) returns (ok: bool)
      requires Valid()
      modifies this
      ensures Valid()
      ensures ok <==> id in old(games)
      ensures ok ==> games == old(games)[id := Reset(old(games)[id])]
      ensures !ok ==> games == old(games)
      ensures users == old(users) && outbox == old(outbox)
    {
      if id !in games {
        return false;
      }
      games := games[id := Reset(games[id])];
      ok := true;
    }

    /**
     * `POST /gm/game/:id/delete` (server.js:591-598): removes the game and
     * then, user by user, its id from every user's list.
     */
    method DeleteGame(id: string)
      requires Valid()
      modifies this
      ensures Valid()
      ensures games == old(games) - {id}
      ensures users == map n | n in old(users) :: WithoutGame(old(users)[n], id)
      ensures outbox == old(outbox)
    {
      games := games - {id};
      var pending := users.Keys;
      while pending != {}
        invariant pending <= users.Keys
        invariant users.Keys == old(users).Keys
        invariant games == old(games) - {id} && outbox == old(outbox)
        invariant forall n :: n in users ==>
          users[n] == if n in pending then old(users)[n] else WithoutGame(old(users)[n], id)
        decreases pending
      {
        var n :| n in pending;
        users := users[n := WithoutGame(users[n], id)];
        pending := pending - {n};
      }
    }

    /**
     * `POST /gm/users/:username/delete` (server.js:323-333): removes the user
     * and then, game by game, takes the name off the roster and out of the votes.
     */
    method DeleteUser(u: string)
      requires Valid()
      modifies this
      ensures Valid()
      ensures users == old(users) - {u}
      ensures games == map id | id in old(games) :: WithoutUser(old(games)[id], u)
      ensures outbox == old(outbox)
    {
      users := users - {u};
      var pending := games.Keys;
      while pending != {}
        invariant pending <= games.Keys
        invariant games.Keys == old(games).Keys
        invariant users == old(users) - {u} && outbox == old(outbox)
        invariant forall id :: id in games ==>
          games[id] == if id in pending then old(games)[id] else WithoutUser(old(games)[id], u)
        invariant ValidGames(games)
        decreases pending
      {
        var id :| id in pending;
        RemoveVoterKeepsDistinct(games[id].votes, u);
        games := games[id := WithoutUser(games[id], u)];
        pending := pending - {id};
      }
    }
  }
}
