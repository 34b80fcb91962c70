# CMNT squad tracker: roster enrichment, modelled in Dafny

The squad tracker keeps a hand-curated roster (`data/players.json`) of
Canadian players and enriches it from the API-Football statistics service
with two offline scripts; its home page lists the "locks".

- **Team-id backfill** (`tools/fetch-api-ids.ts`). Every record with a
  club and no `apiTeamId` is looked up. The club name goes through an
  override table, the service is searched for it, and the first hit's id is
  stored; when the search lists nothing, the record stays as it was. The
  player id is only ever set by hand and is never created. Every other
  field is left alone.
- **Last club game** (`tools/update-last-games.ts`). For every record with
  both service ids, a fixture of the team is looked up and, when one is
  found, stored as a `lastClubGame` snapshot. The fixture is found by a
  three-tier fallback: the completed-match shortcut, then the
  latest-dated fixture of the current season (played or not), then of the
  previous season. When all three tiers find nothing, the record stays as
  it was. The snapshot holds the date, the opponent,
  the competition, a `W|L|D t-o` result read from the tracked team's side,
  and the player's minutes and goals from the fixture's participant list.
- **Home page helpers** (`pages/index.tsx`). The roster order (position
  rank GK < DF < MF < FW < other, then jersey number), the locks list,
  `positionLabel` and `initials`.

Modules:

- `Optional`: `Option`, an absent JSON key.
- `Text`: decimal rendering, `split`/`join` on one character, ASCII
  upper-casing and `slice(0, n)`, with their round trips.
- `Roster`: the player record and the snapshot.
- `Service`: replies, requests, aborts.
- `Fixtures`: the fixture entities and the fallback chain.
- `LastGames`: the last-club-game script.
- `TeamIds`: the backfill script.
- `HomePage`: the home page helpers.

How the model treats the service:

- Each endpoint is a function parameter from query to reply.
- A reply is either the `response` list or the HTTP status of a failed
  call. A failed call makes `apiGet` throw, so the whole run is `Aborted`
  and nothing is written.
- Every step returns the list of requests it issued. Properties like "this
  tier runs only if …" and "no lookup happens" are statements about that
  list.
- Each script's imperative core is a method: the tier-by-tier
  reassignment of `fixture`, the season scan, and the `main` loops that push
  onto `updated`. Each method is proved equal to a specification function.
  The lemmas about those functions state the properties.

The season scan sorts a copy of the response by descending date and takes
element 0. JavaScript's sort is stable, so that element is the first
fixture, in response order, of the latest kickoff; `IsLatestAt` states
this. The scan does not look at a fixture's status, and neither does the
model, so an unplayed fixture dated later than every played one is the one
picked.

`main` in `update-last-games.ts` stores the snapshot exactly as the code
builds it, so it never carries assists (see Findings).
`LastGames.IntendedSnapshot` is the corrected builder and is proved to
carry them. The pipeline functions keep the as-written behaviour because
that is what the script writes to the roster.

## Model

| member | source | states |
|---|---|---|
| `Fixtures.LatestIndex` | tools/update-last-games.ts:79-87 | the index the stable descending sort puts first: no fixture has a later kickoff, and every earlier one has an earlier kickoff |
| `Fixtures.LatestIndexUnique` | tools/update-last-games.ts:79-87 | only one index can come first after that sort, so the pick is determined |
| `Fixtures.ShortcutPick` | tools/update-last-games.ts:48-57 | the completed-match shortcut aborts exactly on a failed call, finds nothing exactly when the reply lists nothing, and otherwise yields the first listed fixture |
| `Fixtures.SeasonPick` | tools/update-last-games.ts:64-88 | a season scan aborts exactly on a failed call, finds nothing exactly on an empty season, and otherwise yields a fixture of that season |
| `Fixtures.LatestFixtureForTeam` | tools/update-last-games.ts:64-88 | the scan's loop returns none for an empty season, aborts on a failed call, and otherwise returns the season's first latest fixture |
| `Fixtures.SeasonPickIsLatest` | tools/update-last-games.ts:72-87 | a scan that finds fixtures returns one of them, and no fixture of that season kicks off later |
| `Fixtures.FixtureChain` | tools/update-last-games.ts:112-130 | the chain issues one to three requests |
| `Fixtures.FallbackOrder` | tools/update-last-games.ts:112-130 | the shortcut always runs first. The current-season scan runs only if the shortcut found nothing, and the previous-season scan (year - 1) only if both found nothing. A season tier that runs yields that season's scan, so it aborts when its call fails. The result is none exactly when all three found nothing. A shortcut hit is used as is, and a failed shortcut call aborts |
| `Fixtures.ResolveLastFixture` | tools/update-last-games.ts:105-130 | the method reassigns `fixture` tier by tier and issues exactly the chain's requests, with exactly the chain's result |
| `LastGames.Orient` | tools/update-last-games.ts:136-143 | the tracked team counts as home exactly when the home side carries its id; otherwise it is away. Home: its goals are the home goals, the opponent's the away goals, the opponent is the away side's name. Away: the mirror |
| `LastGames.OrientationIgnoresListing` | tools/update-last-games.ts:140-143 | team goals, opponent goals and opponent name are swapped with the orientation, so listing the match the other way round reports the same |
| `LastGames.SnapshotScoreline` | tools/update-last-games.ts:140-156 | for a fixture with both goal counts, the snapshot's result reads back with the tracked team's letter and goals first: the home goals when it is listed home, the away goals otherwise |
| `LastGames.ScorelineExamples` | tools/update-last-games.ts:140-156 | a 1-3 home defeat is reported "L 1-3"; the same score with the team away is reported "W 3-1" |
| `LastGames.ResultLabel` | tools/update-last-games.ts:145-156 | the label is absent exactly when either goal count is missing; it is never guessed |
| `LastGames.ResultLabelRoundTrip` | tools/update-last-games.ts:146-156 | the label reads back as its letter with the tracked goals first, then the opponent's. The letter is W exactly when tracked > opponent, L when fewer and D when equal |
| `LastGames.OpponentLabel` | tools/update-last-games.ts:150-155 | the same score from the other side reads back with the converse letter and the score reversed |
| `LastGames.SnapshotDate` | tools/update-last-games.ts:181-187 | a non-empty raw date gives its first 10 characters (all of it if shorter); otherwise "Unknown date" |
| `LastGames.SnapshotDateExample` | tools/update-last-games.ts:181-184 | "2025-11-08T19:00:00+00:00" gives "2025-11-08" |
| `LastGames.FindParticipant` | tools/update-last-games.ts:169-171 | `find` returns the first entry whose player id matches, or none when no entry matches |
| `LastGames.PlayerStats` | tools/update-last-games.ts:168-175 | values come from the first statistics block of the player's first entry in the first team block. Zero stays zero and a missing value stays absent. All are absent when the player is not listed or the player's entry has no statistics block |
| `LastGames.BuildSnapshot` | tools/update-last-games.ts:186-194 | the snapshot carries the player's minutes and goals and the league as competition; `assists` and `minutesPlayed` are always absent |
| `LastGames.IntendedSnapshot` | tools/update-last-games.ts:176 | corrected builder: the assists read are carried, and nothing else differs from the as-written snapshot |
| `LastGames.AssistsDropped` | tools/update-last-games.ts:159-194 | a participant with one assist gets a snapshot without it; the corrected builder keeps it |
| `LastGames.SnapshotIgnoresListing` | tools/update-last-games.ts:136-194 | the snapshot is the same whichever side the tracked team is listed on |
| `LastGames.LastClubGame` | tools/update-last-games.ts:95-198 | a player missing either id (absent or 0) gets no snapshot and no request is made. At most four requests are made. A snapshot never carries assists |
| `LastGames.SnapshotOfFoundFixture` | tools/update-last-games.ts:132-194 | for a found fixture, the snapshot has that fixture's date, opponent (default "Unknown opponent") and result. Minutes and goals are absent when the fixture id is falsy or the player is not listed |
| `LastGames.LastClubGameFollowsChain` | tools/update-last-games.ts:112-175 | for a player with both ids: a failed chain call aborts the lookup and an empty chain gives no snapshot, both with exactly the chain's requests. A found fixture without an id gives the snapshot built without statistics and no further request. For a found fixture with an id, the participant list is requested next; a failed request aborts, and otherwise the stored snapshot is the one built from the player's line in that list |
| `LastGames.FetchLastClubGame` | tools/update-last-games.ts:95-198 | the method, with its block-local `assists`, returns exactly the specified snapshot and requests |
| `LastGames.WithSnapshot` | tools/update-last-games.ts:210-214 | the merge replaces `lastClubGame` when a snapshot was built; every other field is unchanged, and with no snapshot the record is unchanged |
| `LastGames.UpdateAll` | tools/update-last-games.ts:205-215 | a completed run has one record per input record, and the run makes at most four requests per record |
| `LastGames.UpdateAllAbortSticks` | tools/update-last-games.ts:205-215 | once a prefix of the roster aborts, the whole run has aborted |
| `LastGames.UpdateAllCompletes` | tools/update-last-games.ts:200-218 | the run completes exactly when no player's lookup aborts, and then it has issued every player's requests, player by player in roster order |
| `LastGames.UpdateAllFirstAbort` | tools/update-last-games.ts:200-218 | when player k's lookup is the first to abort, the run aborts with that status, having issued the requests of the players before k and then player k's |
| `LastGames.UpdateAllShape` | tools/update-last-games.ts:205-215 | a completed run keeps length and order. Record i is record i merged with its own snapshot, differing at most in `lastClubGame` |
| `LastGames.LastClubGameIgnoresSnapshot` | tools/update-last-games.ts:98-130 | the lookup does not read the stored snapshot |
| `LastGames.UpdateIdempotent` | tools/update-last-games.ts:200-218 | a second run against the same service makes the same requests and writes the same roster |
| `LastGames.UpdateWithoutIds` | tools/update-last-games.ts:98-103 | a roster where nobody has both ids is written back unchanged with no request |
| `LastGames.UpdateLastGames` | tools/update-last-games.ts:205-215 | the `main` loop writes exactly the specified roster, or aborts at the first failed call, with exactly the specified requests |
| `TeamIds.SearchTerm` | tools/fetch-api-ids.ts:54 | a club without an override is searched verbatim, and the term searched is never itself a name with an override |
| `TeamIds.SearchTermChoice` | tools/fetch-api-ids.ts:54 | using the override table at lines 16-20, the search term is the override when the club has one ("OGC Nice" becomes "Nice", "U.S. Sassuolo Calcio" becomes "Sassuolo") and the club name verbatim otherwise; choosing it twice changes nothing |
| `TeamIds.FindTeamId` | tools/fetch-api-ids.ts:53-68 | resolution issues exactly one search, for the chosen term |
| `TeamIds.FirstHitWins` | tools/fetch-api-ids.ts:60-67 | the result is not-found exactly when the search lists nothing; otherwise it is the id of the first hit; a failed call aborts |
| `TeamIds.MergeIds` | tools/fetch-api-ids.ts:94-98 | the spread merge sets `apiTeamId` / `apiPlayerId` only when a value is defined, and keeps every other field |
| `TeamIds.BackfillRecord` | tools/fetch-api-ids.ts:80-98 | no search is made exactly when the record has no club or already has `apiTeamId`; at most one search is made; `apiPlayerId` is never changed; a failed search for a record that needs one aborts |
| `TeamIds.BackfillRecordSpec` | tools/fetch-api-ids.ts:80-98 | a record without a club, or with an `apiTeamId`, passes through unchanged with no search. `apiPlayerId` is never changed. Only `apiTeamId` can change, and only to the first hit's id; an unresolved record keeps every field |
| `TeamIds.BackfillRecordStable` | tools/fetch-api-ids.ts:80-98 | backfilling a backfilled record changes nothing |
| `TeamIds.BackfillAll` | tools/fetch-api-ids.ts:78-99 | a completed run has one record per input record, and the run makes at most one search per record |
| `TeamIds.BackfillAllAbortSticks` | tools/fetch-api-ids.ts:78-99 | once a prefix of the roster aborts, the whole run has aborted |
| `TeamIds.BackfillAllCompletes` | tools/fetch-api-ids.ts:73-102 | the run completes exactly when no record's search fails, and then it has issued every record's requests in roster order |
| `TeamIds.BackfillAllFirstAbort` | tools/fetch-api-ids.ts:73-102 | when record k's search is the first to fail, the run aborts with that status, having issued the earlier records' searches and then record k's |
| `TeamIds.BackfillAllShape` | tools/fetch-api-ids.ts:78-99 | a completed run keeps length and order; record i is the backfill of record i |
| `TeamIds.BackfillIdempotent` | tools/fetch-api-ids.ts:73-102 | a second run against the same service writes the same roster |
| `TeamIds.BackfillNothingToDo` | tools/fetch-api-ids.ts:81-89 | a roster with nothing to resolve is written back unchanged with no search |
| `TeamIds.BackfillTeamIds` | tools/fetch-api-ids.ts:78-99 | the `main` loop, with its `continue`, writes exactly the specified roster, or aborts at the first failed search, with exactly the specified requests |
| `HomePage.SortPlayers` | pages/index.tsx:29-37 | the comparator is negative exactly when a comes first by (rank, jersey), and 0 exactly when rank and effective jersey agree |
| `HomePage.SortPlayersMeaning` | pages/index.tsx:29-37 | the comparator is antisymmetric: `sortPlayers(a,b) == -sortPlayers(b,a)`, and it is positive exactly when b comes first |
| `HomePage.PositionRanks` | pages/index.tsx:22-31 | GK < DF < MF < FW < any other position (rank 99) |
| `HomePage.MissingJerseyLast` | pages/index.tsx:34-36 | within a position, a player without a jersey (999) comes after every numbered player below 999 |
| `HomePage.SortPlayersTransitive` | pages/index.tsx:29-37 | the comparator is a consistent (transitive) order |
| `HomePage.Insert` | pages/index.tsx:42 | insertion adds exactly that player to the multiset of players, and the new head is that player or the old head |
| `HomePage.InsertSorted` | pages/index.tsx:42 | inserting into a sorted list keeps it sorted |
| `HomePage.SortByPosition` | pages/index.tsx:42 | the sort returns a sorted permutation of its input |
| `HomePage.SortedPairwise` | pages/index.tsx:42 | in the sorted list every player is in order with every later one |
| `HomePage.Filter` | pages/index.tsx:41 | `filter` keeps exactly the players the test accepts, each as many times as in the input |
| `HomePage.Locks` | pages/index.tsx:40-42 | the locks list is sorted, and holds each player with status "lock" or `lock == true` as many times as the roster does, and no other player |
| `HomePage.LocksSpec` | pages/index.tsx:40-42 | the locks are exactly the roster's players with status "lock" or `lock == true`, and every lock is in the comparator's order with every later one |
| `HomePage.FiltersAgree` | _tests_/locksTable.integration.test.tsx:9-26 | if no player has `lock == true` without status "lock", the two filters agree |
| `HomePage.LockCount` | _tests_/locksTable.integration.test.tsx:9-26 | under that condition the table has as many rows as players with status "lock" |
| `HomePage.PositionLabel` | pages/index.tsx:187-200 | a label is never empty; it is the code itself, the dash, or one of the four position names |
| `HomePage.PositionLabelSpec` | pages/index.tsx:187-200 | GK/DF/MF/FW in any letter case become Goalkeeper/Defender/Midfielder/Forward. Any other code is returned unchanged, and an empty one becomes "—", so a label is never empty |
| `HomePage.LabelAndRankCodes` | pages/index.tsx:188-196 | the label knows the codes the order ranks, but only the label ignores case: "gk" is labelled Goalkeeper yet ranked 99 |
| `HomePage.FirstCharsOfSplit` | pages/index.tsx:203-206 | the first characters of the `split(" ")` words equal the characters that start the name or follow a space |
| `HomePage.Initials` | pages/index.tsx:202-209 | the initials are at most 2 characters |
| `HomePage.InitialsSpec` | pages/index.tsx:202-209 | the initials are the upper-cased first characters of the space-separated words, truncated to 2; empty words add nothing |
| `Text.ParseNatToString` | tools/update-last-games.ts:155 | a goal count written in decimal reads back as the same number |
| `Text.JoinSplit` | pages/index.tsx:204 | joining the pieces of `split` gives back the string |
| `Text.SplitJoin` | pages/index.tsx:204 | splitting joined separator-free pieces gives back the pieces |

## Left out

- `apiGet` in both scripts (the HTTP request, the API-key header, `.env.local`, JSON decoding, and in tools/update-last-games.ts the warning-only `errors` check) is a reply parameter per endpoint. A failed call is the `HttpError` reply that aborts the run.
- A missing `response` list is modelled as an empty one; the code treats both alike at every use.
- JSON `null` and an absent key are both `None`.
- The key order of the written JSON objects is not modelled.
- File I/O, `JSON.parse`/`stringify`, `process.exit` and all console logging are not modelled. An aborted run is one that writes nothing.
- `new Date().getFullYear()` is the `currentYear` parameter.
- `new Date(fixture.date).getTime()` is the fixture's `kickoff` field. Dates that do not parse (NaN in the sort) are not modelled.
- Fixtures.LatestFixtureForTeam: the in-place sort of the copied season list is modelled by one pass that finds the element the stable sort puts first. The order of the rest of the copy is never read and is not modelled.
- HomePage.SortByPosition: its contract states sorted and a permutation, not stability. The model's insertion sort keeps ties in input order, as JavaScript's sort does, but that is not proved.
- Strings are sequences of Unicode scalar values, while JavaScript's `slice(0, 10)` on the date, `n[0]` and `.slice(0, 2)` in `initials` count UTF-16 code units. A date or name with a character outside U+0000–U+FFFF (an emoji, say) is cut differently by the model.
- Upper-casing is ASCII only. For the four position codes this decides the same matches; in `initials`, a character that upper-cases to two (such as "ß") is not modelled.
- Lookups in the plain objects `teamNameMap` and `POSITION_ORDER` that hit inherited properties (a club or position named "constructor") are not modelled.
- Numbers are integers. Goal counts are non-negative; a fractional or negative goal count is not modelled. A team hit always carries an id.
- A `TypeError` from a malformed payload (a search hit without `team`) is not modelled.
- Only the `pages/index.tsx` `Player` fields the helpers read are modelled.
- `position` is always a string (the `code?.` guard for an undefined code is not modelled).
- The JSX markup of pages/index.tsx and the rendering in components/LastClubGame.tsx are not part of this model; only the `LastClubGameData` shape is reused, as `Roster.Snapshot`.
- pages/players.tsx, pages/_app.tsx, the configuration files and the test harness are not part of this model.

## Findings

| source | as written | input that shows it | evidently intended | confidence | as-written member | corrected member |
|---|---|---|---|---|---|---|
| tools/update-last-games.ts:176 | `const assists` declares a new block-local variable, so the outer `assists` put into the snapshot is never assigned | a participant entry for the player whose first statistics block has `goals.assists = 1` | the snapshot carries the assists read from the participant list | high; not executed | `LastGames.AssistsDropped` | `LastGames.IntendedSnapshot` |
