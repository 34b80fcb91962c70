/**
 * Fixtures as the statistics service returns them, and the three-tier
 * search for a team's most recent fixture in tools/update-last-games.ts:
 * the completed-match shortcut, then a scan of the current season, then a
 * scan of the previous one.
 */
module Fixtures {
  import opened Optional
  import opened Service

  /** `teams.home` / `teams.away` of a fixture. */
  datatype Side = Side(id: Option<int>, name: Option<string>)

  /**
   * One fixture. `date` is the raw `fixture.date` timestamp and `kickoff`
   * the instant it denotes (`new Date(date).getTime()`), the sort key.
   */
  datatype Fixture = Fixture(
    id: Option<int>,
    date: Option<string>,
    kickoff: int,
    league: Option<string>,
    home: Option<Side>,
    away: Option<Side>,
    goalsHome: Option<nat>,
    goalsAway: Option<nat>)

  /** `statistics[k]` of a participant: `games.minutes`, `goals.total`, `goals.assists`. */
  datatype StatBlock = StatBlock(minutes: Option<int>, goals: Option<int>, assists: Option<int>)

  /** One entry of a team's participant list: `player.id` and its statistics blocks. */
  datatype Participant = Participant(player: Option<int>, statistics: seq<StatBlock>)

  /** One element of the `/fixtures/players` response: a team and its participants. */
  datatype TeamBlock = TeamBlock(players: seq<Participant>)

  /** The three fixture endpoints the match-summary script calls. */
  datatype FixtureApi = FixtureApi(
    lastCompleted: int -> Reply<Fixture>,
    season: (int, int) -> Reply<Fixture>,
    players: (int, int) -> Reply<TeamBlock>)

  /** `getLastPlayedFixtureForTeam`: the first fixture of the reply, if any. */
  function ShortcutPick(reply: Reply<Fixture>): (r: Attempt<Option<Fixture>>)
    ensures r.Aborted? <==> reply.HttpError?
    ensures r == Done(None) <==> reply == Ok([])
    ensures r.Done? && r.value.Some? ==> r.value.value == reply.response[0]
  {
    match reply
    case HttpError(status) => Aborted(status)
    case Ok(fixtures) => Done(if |fixtures| == 0 then None else Some(fixtures[0]))
  }

  /**
   * `i` is where a stable sort by descending kickoff puts its first
   * element: a latest fixture, and the earliest in the list among the
   * latest ones.
   */
  predicate IsLatestAt(fixtures: seq<Fixture>, i: int) {
    && 0 <= i < |fixtures|
    && (forall j :: 0 <= j < |fixtures| ==> fixtures[j].kickoff <= fixtures[i].kickoff)
    && (forall j :: 0 <= j < i ==> fixtures[j].kickoff < fixtures[i].kickoff)
  }

  function LatestIndex(fixtures: seq<Fixture>): (i: nat)
    requires |fixtures| > 0
    ensures IsLatestAt(fixtures, i)
  {
    if |fixtures| == 1 then 0
    else
      var j := LatestIndex(fixtures[..|fixtures| - 1]);
      if fixtures[|fixtures| - 1].kickoff > fixtures[j].kickoff then |fixtures| - 1 else j
  }

  /** Only one position can be first after the sort. */
  lemma LatestIndexUnique(fixtures: seq<Fixture>, i: int, k: int)
    requires IsLatestAt(fixtures, i) && IsLatestAt(fixtures, k)
    ensures i == k
  {
    assert fixtures[i].kickoff == fixtures[k].kickoff;
  }

  /** `getLatestFixtureForTeam`, as a value: none for an empty season, else its latest fixture. */
  function SeasonPick(reply: Reply<Fixture>): (r: Attempt<Option<Fixture>>)
    ensures r.Aborted? <==> reply.HttpError?
    ensures r == Done(None) <==> reply == Ok([])
    ensures r.Done? && r.value.Some? ==> r.value.value in reply.response
  {
    match reply
    case HttpError(status) => Aborted(status)
    case Ok(fixtures) =>
      Done(if |fixtures| == 0 then None else Some(fixtures[LatestIndex(fixtures)]))
  }

  /**
   * `getLatestFixtureForTeam` on the season reply: the fixture that
   * sorting a copy by descending date puts first.
   */
  method LatestFixtureForTeam(reply: Reply<Fixture>) returns (latest: Attempt<Option<Fixture>>)
    ensures latest == SeasonPick(reply)
  {
    if reply.HttpError? {
      return Aborted(reply.status);
    }
    var fixtures := reply.response;
    if |fixtures| == 0 {
      return Done(None);
    }
    var best, k := 0, 1;
    while k < |fixtures|
      invariant 0 <= best < k <= |fixtures|
      invariant forall j :: 0 <= j < k ==> fixtures[j].kickoff <= fixtures[best].kickoff
      invariant forall j :: 0 <= j < best ==> fixtures[j].kickoff < fixtures[best].kickoff
    {
      if fixtures[k].kickoff > fixtures[best].kickoff {
        best := k;
      }
      k := k + 1;
    }
    LatestIndexUnique(fixtures, best, LatestIndex(fixtures));
    latest := Done(Some(fixtures[best]));
  }

  /** A tier that found nothing: a successful reply with an empty list. */
  predicate FoundNothing(reply: Reply<Fixture>) {
    reply == Ok([])
  }

  /** The fallback chain of `fetchLastClubGameForPlayer`, with the requests it issues. */
  function FixtureChain(api: FixtureApi, team: int, currentYear: int): (r: Traced<Option<Fixture>>)
    ensures 1 <= |r.calls| <= 3
  {
    var shortcut := ShortcutPick(api.lastCompleted(team));
    var calls := [LastCompleted(team)];
    if shortcut != Done(None) then Traced(shortcut, calls)
    else
      var current := SeasonPick(api.season(team, currentYear));
      var calls' := calls + [SeasonFixtures(team, currentYear)];
      if current != Done(None) then Traced(current, calls')
      else
        Traced(SeasonPick(api.season(team, currentYear - 1)),
               calls' + [SeasonFixtures(team, currentYear - 1)])
  }

  /**
   * Tiers run in order and each only when every earlier one found nothing;
   * a season tier yields that season's scan; the chain yields none exactly
   * when all three found nothing, and a failed call ends it.
   */
  lemma FallbackOrder(api: FixtureApi, team: int, currentYear: int)
    ensures var r := FixtureChain(api, team, currentYear);
      var shortcut := api.lastCompleted(team);
      var current := api.season(team, currentYear);
      var previous := api.season(team, currentYear - 1);
      && (!FoundNothing(shortcut) ==> r.calls == [LastCompleted(team)])
      && (FoundNothing(shortcut) && !FoundNothing(current) ==>
            r.calls == [LastCompleted(team), SeasonFixtures(team, currentYear)])
      && (FoundNothing(shortcut) && FoundNothing(current) ==>
            r.calls == [LastCompleted(team), SeasonFixtures(team, currentYear),
                        SeasonFixtures(team, currentYear - 1)])
      && (FoundNothing(shortcut) && !FoundNothing(current) ==> r.outcome == SeasonPick(current))
      && (FoundNothing(shortcut) && FoundNothing(current) ==> r.outcome == SeasonPick(previous))
      && (r.outcome == Done(None) <==>
            FoundNothing(shortcut) && FoundNothing(current) && FoundNothing(previous))
      && (shortcut.Ok? && |shortcut.response| > 0 ==> r.outcome == Done(Some(shortcut.response[0])))
      && (shortcut.HttpError? ==> r.outcome == Aborted(shortcut.status))
  {
  }

  /** A scan that finds fixtures yields one whose kickoff no other fixture of that season passes. */
  lemma SeasonPickIsLatest(reply: Reply<Fixture>)
    requires reply.Ok? && |reply.response| > 0
    ensures var r := SeasonPick(reply);
      && r.Done? && r.value.Some? && r.value.value in reply.response
      && forall g :: g in reply.response ==> g.kickoff <= r.value.value.kickoff
  {
  }

  /**
   * The body of `fetchLastClubGameForPlayer` that reassigns `fixture`
   * through the three tiers.
   */
  method ResolveLastFixture(api: FixtureApi, team: int, currentYear: int)
    returns (fixture: Attempt<Option<Fixture>>, calls: seq<Request>)
    ensures Traced(fixture, calls) == FixtureChain(api, team, currentYear)
  {
    // 1) the completed-match shortcut
    calls := [LastCompleted(team)];
    fixture := ShortcutPick(api.lastCompleted(team));
    if fixture.Aborted? {
      return;
    }
    // 2) this season
    if fixture.value.None? {
      calls := calls + [SeasonFixtures(team, currentYear)];
      fixture := LatestFixtureForTeam(api.season(team, currentYear));
      if fixture.Aborted? {
        return;
      }
    }
    // 3) last season
    if fixture.value.None? {
      calls := calls + [SeasonFixtures(team, currentYear - 1)];
      fixture := LatestFixtureForTeam(api.season(team, currentYear - 1));
    }
  }
}
