# TTRPG date picker: availability and scheduling core, in Dafny

This project models the scheduling engine of a small tabletop-game date picker
(`server.js`). Players vote for weekdays. The game master's page shows:

- the days every voter shares;
- each voted day's share of voters, as a colour band;
- when no day suits everyone, an explanation naming the closest day or days.

The GM then commits a day, and a notification message may be posted to a webhook.

The modules follow the parts of the program:

| file | module | what it models |
|---|---|---|
| `votes.dfy` | `Votes` | a game's `votes` object. It is an ordered association list, because a JavaScript object keeps its keys in insertion order. It also holds per-day counts, blockers and the list of voted days. |
| `intersection.dfy` | `Intersection` | `intersect`: a fold of pairwise filters. |
| `match_score.dfy` | `MatchScore` | `getMatchColor`, using integer cross-multiplication. |
| `divergence.dfy` | `Divergence` | `analyzeNoCommonDays`. Its nested loops are methods; the function `Explain` specifies them. |
| `dashboard.dfy` | `Dashboard` | what the GM game page computes before rendering. |
| `notification.dfy` | `Notification` | the message text `sendDiscordWebhook` composes. |
| `game_store.dfy` | `GameStore` | the `games`/`users` maps as a class. The request handlers are its methods. |
| `scenarios.dfy` | `Scenarios` | worked examples. |
| `subsequence.dfy` | `Subsequences` | order-preserving selection, which `filter` and `delete` guarantee. |
| `text.dfy`, `wrappers.dfy` | `Text`, `Wrappers` | `join`, truthiness, `Option`. |

The model follows what the code does, including where that differs from what a reader of the interface might expect:

- Day labels are arbitrary strings (apart from the key names excluded under "Left out"). Votes are neither validated nor deduplicated. Repeats in the first voter's list survive `intersect`; a repeat in any other voter's list has no effect.
- `intersect` keeps the order of the first voter's list. It does not sort days Monday to Sunday.
- The "nothing selected" answer needs at least two voters, and it fires only when every voter's list is empty. A lone voter with an empty list is reported as "Only X has voted so far." (`Scenarios.SoleEmptyVoter`). A voter with an empty list among others is not called out.
- Tied days are offered in order of first appearance in the voters' lists, read voter by voter in the order the voters first voted (a re-vote keeps the voter's place), not in weekday order.
- The schedule and webhook handlers check that the acting user owns the game. Reset, assign, vote and delete-game do not.
- `analyzeNoCommonDays` throws a TypeError when the single best day has no blockers. The model proves this cannot happen where the dashboard calls it (`Divergence.NoCommonDayNeverThrows`). `Scenarios.UnanimousDayThrows` shows a direct call where it does happen.
- The band of a count above the total is High, not Full, so the band is monotone only up to the total (`MatchScore.AboveTotalIsHigh`).

Each handler that would throw returns `ok == false`. The state it leaves is what the handler had already changed. For example, assigning a name with no user record still adds the name to the roster.

Every handler keeps the store's invariant: in every game, each voter has one entry and no player is on the roster twice.

## Model

| member | source | states |
|---|---|---|
| `Intersection.Intersect` | server.js:29 | No lists give `[]`. Otherwise the fold equals the reference definition: the elements of the first list, in order, that every other list contains. |
| `Intersection.ReduceIsCommonPart` | server.js:29 | The `reduce`/`filter` fold computes exactly that reference definition, for any starting list. |
| `Intersection.IntersectMembership` | server.js:29 | A day is in the intersection if and only if there is a voter and every voter's list contains it. |
| `Intersection.IntersectSubsequence` | server.js:29 | The result is a subsequence of the first voter's list, in that list's order. |
| `Intersection.IntersectSingle` | server.js:29 | A single voter's list comes back unchanged. |
| `MatchScore.MatchBand` | server.js:32-42 | No voters, and only then, gives the neutral band. |
| `MatchScore.MatchBandOf` | server.js:493 | A missing count (`undefined / t` is NaN) with voters gives the lowest band. A present count gives `MatchBand`. |
| `MatchScore.Color` | server.js:33-41 | Every band's colour is a CSS hex colour, and the grey `#666` is used exactly when nobody has voted. |
| `MatchScore.ColorsDistinct` | server.js:33-41 | Different bands are painted in different colours. |
| `MatchScore.BandBracketsFraction` | server.js:34-41 | For `0 < t`, `m <= t`: the band is `m/t` rounded down to fifths. Its lower bound is at most `m/t`, and below a full match the next fifth exceeds `m/t`. |
| `MatchScore.EveryoneIsFull` | server.js:36 | `m == t > 0` gives the full-match band. |
| `MatchScore.NobodyIsMinimal` | server.js:41 | `m == 0 < t` gives the lowest band. |
| `MatchScore.BandMonotone` | server.js:36-41 | Up to the total, a higher count for the same total never gives a lower band. |
| `MatchScore.AboveTotalIsHigh` | server.js:36-37 | A count above the total gives High, not Full. |
| `Votes.Lookup` | server.js:346 | `votes[name]` is undefined exactly for non-voters. Otherwise it is that voter's list. |
| `Votes.SetVote` | server.js:371 | `votes[name] = days`: the key keeps its place or goes last. The voter's entry becomes `days`, and every other voter's entry is unchanged. |
| `Votes.SetVoteIdempotent` | server.js:371 | Submitting the same list twice equals submitting it once. |
| `Votes.SetVoteKeepsDistinct` | server.js:371 | Voting keeps one entry per voter. |
| `Votes.RemoveVoter` | server.js:328 | `delete votes[u]`: `u` has no entry afterwards. Every other voter's entry is unchanged, no entry is invented, and the remaining entries keep their order. |
| `Votes.RemoveVoterKeepsDistinct` | server.js:328 | Removal keeps voters distinct, and the removed name is gone. |
| `Votes.DedupIsSetOfDistinct` | server.js:58 | `[...new Set(s)]` has the same members as `s`, each once. |
| `Votes.DedupFirstAppearance` | server.js:58 | `[...new Set(s)]` lists the elements by first appearance: of two listed elements, the earlier one first occurs earlier in `s`. |
| `Votes.FlattenMembership` | server.js:58 | A day is in `Object.values(votes).flat()` if and only if some voter's list contains it. |
| `Votes.AllDaysMembership` | server.js:58 | The voted days are exactly the days some voter selected, without repeats. |
| `Votes.AllDaysEmptyIff` | server.js:58-61 | The voted days are empty if and only if every voter's list is empty. |
| `Votes.CountPlusBlockers` | server.js:64-78 | A day's count plus its number of blockers equals the number of voters. |
| `Votes.BlockersExact` | server.js:65-72 | The blockers of a day are exactly the voters whose list lacks it. |
| `Votes.NoBlockersIff` | server.js:65-72 | A day has no blockers if and only if every voter's list contains it. |
| `Votes.BlockersCoverAll` | server.js:430-434 | A day that some voter selected has fewer blockers than voters. |
| `Votes.CountBounds` | server.js:430-434 | A count is at most the number of voters, and at least 1 for a voted day. |
| `Divergence.MaxCount` | server.js:80 | `Math.max` over the voted days' counts bounds every count and is attained by one of them. |
| `Divergence.ClosestDays` | server.js:81 | The filter keeps exactly the listed days whose count equals the given maximum, each once, in the order they are listed. |
| `Divergence.Render` | server.js:50-87 | The answer texts: "No players have voted yet." and "Players haven't selected any days." each belong to exactly one kind of answer, and the closest-day text starts with the day. |
| `Divergence.Explain` | server.js:45-89 | The analysis throws only with at least two voters and a day in every voter's list. |
| `Divergence.UnblockedDayIsCommon` | server.js:84 | A day that no voter lacks is in the intersection, so the undefined-blockers TypeError implies a common day. |
| `Divergence.Message` | server.js:45-89 | The text is "No players have voted yet." exactly when nobody voted. No text (a throw) only happens with two or more voters and a non-empty intersection. |
| `Divergence.TallyDays` | server.js:75-78 | The counting loops map each listed day to its number of voters. The dashboard loop at 431-434 is the same. |
| `Divergence.CollectBlockers` | server.js:64-72 | The nested loops give a day an entry only when some voter lacks it. The entry is that day's blockers, in voter order. |
| `Divergence.AnalyzeNoCommonDays` | server.js:45-89 | The method returns the text `Explain` specifies, or nothing where the source throws. |
| `Divergence.ExplainPrecedence` | server.js:49-61 | No voters gives "No players have voted yet.". One voter gives "Only X has voted so far.". With two or more voters, the text is "Players haven't selected any days." if and only if every list is empty. |
| `Divergence.ClosestAreMaximal` | server.js:80-81 | Filtering the days at the maximum count keeps exactly the days that no other day beats, and at least one day survives. |
| `Divergence.MostAvailableIsExact` | server.js:74-81 | The closest days are exactly the voted days with the largest count. There is at least one, and none repeats. |
| `Divergence.SingleClosestDay` | server.js:83-85 | A single closest day is named with exactly the voters lacking it, with "are" for more than one and "is" otherwise. |
| `Divergence.TiedClosestDays` | server.js:86-87 | Several closest days are all offered, joined with " or ". |
| `Divergence.SingleTopDayIsNamed` | server.js:74-85 | With two or more voters, a voted day that beats every other day on count, and that some voter lacks, is the only closest day. The answer names it with its blockers. |
| `Divergence.TiedTopDaysAreOffered` | server.js:74-87 | Two different voted days that share the largest count are both closest. The answer offers every closest day, joined with " or ". |
| `Divergence.NoCommonDayNeverThrows` | server.js:500-506 | With voters and an empty intersection, the analysis always answers and never hits the undefined-blockers TypeError. |
| `Dashboard.GmView` | server.js:424-506 | The page holds the intersection and each voted day's count, total and band, with `1 <= count <= total` and count plus blockers equal to total. The scheduled day's band is lowest when nobody voted for it. The analysis is the perfect-match list, or the explanation when there are voters and no common day. |
| `Notification.BaseMessage` | server.js:96 | The announcement starts with the title line and the game name. The date line that follows names the day. The roster line comes last, its label followed by the roster joined with ", ", first player first. Its length is the sum of its parts. |
| `Text.Join` | server.js:84-87 | `join`: empty for no elements, the element itself for one, and otherwise text that starts with the first element. |
| `Notification.FullMessage` | server.js:96-97 | The message ends with the base text. A non-empty mention comes first, followed by a blank line. An empty mention leaves the base text alone. |
| `GameStore.OrNull` | server.js:549 | `s \|\| null`: null exactly for the empty string. |
| `GameStore.SubmittedDays` | server.js:368-369 | An array is kept as sent. A single value becomes a one-element list. An absent or empty value becomes `[]`. |
| `GameStore.FilterOut` | server.js:327 | The dropped value is gone. Every other value keeps its number of occurrences and its order. No duplicates are created. |
| `GameStore.DiscordNotice` | server.js:92-97 | Nothing without a webhook address. Otherwise the notice goes to that address with the composed message. |
| `GameStore.ScheduleNotice` | server.js:565-567 | The schedule handler sends a notice exactly when the day is non-empty and an address is set. |
| `GameStore.VoteReplacesOneEntry` | server.js:366-374 | A vote sets that voter's entry and changes no other entry or field. Repeating it changes nothing. |
| `GameStore.DeleteUserRemovesTraces` | server.js:326-329 | After deletion the user is on no roster and has no vote. Every other player and vote is kept. |
| `GameStore.AssignNoDuplicates` | server.js:575-576 | Adding a player who is not on the roster keeps the roster free of duplicates. |
| `GameStore.ScheduleThenClear` | server.js:561 | Scheduling a day and then nothing leaves the game unscheduled and otherwise as it was. |
| `GameStore.Store.constructor` | server.js:108-109 | The store starts from the loaded games and users with nothing posted. |
| `GameStore.Store.SubmitVote` | server.js:366-374 | For an existing game, the voter's entry is replaced and nothing else changes. A missing game throws with no change. |
| `GameStore.Store.CreateGame` | server.js:396-412 | The new game has empty votes and roster, effect defaulting to "none", and no scheduled day. Its id is appended to the creator's games. |
| `GameStore.Store.GmDashboard` | server.js:415-422 | Only the owner gets the view. The view describes the game's votes as `GmView` states. |
| `GameStore.Store.UpdateWebhook` | server.js:546-553 | Only the owner changes the address. An empty value clears it, and nothing else changes. |
| `GameStore.Store.Schedule` | server.js:556-571 | Only the owner schedules. The submitted day is stored as given, without consulting the votes. The outbox grows by the notice exactly when the day and address are set. |
| `GameStore.Store.Assign` | server.js:573-582 | A player not on the roster is appended and the game id is added to their user record. A player already present changes nothing. |
| `GameStore.Store.ResetVotes` | server.js:584-589 | Votes become empty. Scheduled day, roster and all else are unchanged. A missing game throws. |
| `GameStore.Store.DeleteGame` | server.js:591-598 | The game is gone and its id is removed from every user's list. |
| `GameStore.Store.DeleteUser` | server.js:323-333 | The user is gone, and every game drops them from its roster and its votes. |
| `Scenarios.OverlapOnTuesday` | server.js:29-42 | {Alice: Mon, Tue; Bob: Tue, Wed} gives intersection [Tuesday], Monday 1/2 in the Moderate band and Tuesday 2/2 Full. |
| `Scenarios.TwoDaysTie` | server.js:80-87 | {Alice: Mon; Bob: Wed} offers "Monday or Wednesday". |
| `Scenarios.SoleEmptyVoter` | server.js:53-54 | {Alice: []} reports Alice as the only voter. |
| `Scenarios.OneDayShort` | server.js:74-85 | {Alice: Mon; Bob: Mon; Carol: Tue} gives "Monday is closest to working, but Carol is not available.". |
| `Scenarios.UnanimousDayThrows` | server.js:84 | {Alice: Mon; Bob: Mon, Tue}: a direct call would throw, but the intersection is [Monday], so the dashboard never makes it. |

## Left out

- Express routing, HTML rendering (`renderPage`, the per-voter coloured day lists at server.js:456-463) and the client-side day-selection script: presentation only.
- Login, registration, sessions and bcrypt hashing: external authentication. The `requireLogin`/`requireGM` middleware is assumed to have run. The acting user is a parameter.
- `loadJSON`/`saveJSON`: the in-memory maps are the state, and each save is treated as a no-op.
- `axios.post` and its swallowed errors: a notification is recorded in the store's `outbox` as address and body.
- Game ids from `Date.now()`: the id is a parameter of `CreateGame`.
- The `async`/`await` ordering of the schedule handler: the day is stored before the notice is composed, as in the source.
- Special object keys. Voter names and day labels are assumed to be ordinary keys:
  - not canonical array indices such as "42", which JavaScript orders before other keys (the model keeps plain insertion order);
  - not `__proto__`: `votes["__proto__"] = days` (server.js:371) replaces the object's prototype instead of adding a voter;
  - not a name inherited from `Object.prototype`, such as `constructor` or `toString`. For a day with that name, `missingDaysByPlayer[day] || []` (server.js:68) returns the inherited function, and `.push` (server.js:69) throws. The dashboard request then fails where `Explain` gives an answer (for example, `TiedDays(["constructor", "Monday"])` for {A: constructor; B: Monday}).
- `MatchScore.MatchBand`: uses exact rational comparison. The source's floating-point division gives the same bands for any realistic number of voters (well below 2^26), but this is not proved.
- Request bodies are not modelled beyond the forms used: a voter name, an optional single or repeated `days` field, and string or absent day and mention values.
