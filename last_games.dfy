/**
 * tools/update-last-games.ts: for each player with both service
 * identifiers, find the team's most recent fixture, read the player's line
 * from its participant list, build a last-club-game snapshot and store it
 * on the record.
 */
module LastGames {
  import opened Optional
  import opened Text
  import opened Roster
  import opened Service
  import opened Fixtures

  // ---------------------------------------------------------------
  // Orientation: the fixture seen from the tracked team's side
  // ---------------------------------------------------------------

  datatype View = View(isHome: bool, teamGoals: Option<nat>, oppGoals: Option<nat>, opponent: Option<string>)

  function SideName(side: Option<Side>): Option<string> {
    if side.Some? then side.value.name else None
  }

  predicate ListedAs(side: Option<Side>, team: int) {
    side.Some? && side.value.id == Some(team)
  }

  /** The tracked team is home exactly when the home side carries its id; otherwise it is taken to be away. */
  function Orient(f: Fixture, team: int): (v: View)
    ensures v.isHome <==> ListedAs(f.home, team)
    ensures v.isHome ==> v.teamGoals == f.goalsHome && v.oppGoals == f.goalsAway && v.opponent == SideName(f.away)
    ensures !v.isHome ==> v.teamGoals == f.goalsAway && v.oppGoals == f.goalsHome && v.opponent == SideName(f.home)
  {
    var isHome := ListedAs(f.home, team);
    View(isHome,
         if isHome then f.goalsHome else f.goalsAway,
         if isHome then f.goalsAway else f.goalsHome,
         if isHome then SideName(f.away) else SideName(f.home))
  }

  /** The same match with its two sides listed the other way round. */
  function Swap(f: Fixture): Fixture {
    f.(home := f.away, away := f.home, goalsHome := f.goalsAway, goalsAway := f.goalsHome)
  }

  /**
   * Which side the tracked team is listed on does not change what is
   * reported for it: its goals, the opponent's goals and the opponent's name.
   */
  lemma OrientationIgnoresListing(f: Fixture, team: int)
    requires ListedAs(f.home, team) && !ListedAs(f.away, team)
    ensures Orient(Swap(f), team) == Orient(f, team).(isHome := false)
  {
  }

  // ---------------------------------------------------------------
  // Result label "W|L|D t-o"
  // ---------------------------------------------------------------

  function Letter(team: nat, opp: nat): char {
    if team > opp then 'W' else if team < opp then 'L' else 'D'
  }

  /** The label, when both goal counts are numbers: letter, space, tracked goals, '-', opponent goals. */
  function ResultLabel(team: Option<nat>, opp: Option<nat>): (r: Option<string>)
    ensures r.None? <==> team.None? || opp.None?
  {
    if team.Some? && opp.Some? then
      Some([Letter(team.value, opp.value), ' '] + NatToString(team.value) + "-" + NatToString(opp.value))
    else None
  }

  datatype Scoreline = Scoreline(letter: char, team: nat, opp: nat)

  /** Reads a result label back. */
  function DecodeResult(text: string): Option<Scoreline> {
    if |text| < 2 || text[0] !in "WLD" || text[1] != ' ' then None
    else
      var parts := Split(text[2..], '-');
      if |parts| == 2 && parts[0] != "" && parts[1] != "" && AllDigits(parts[0]) && AllDigits(parts[1])
      then Some(Scoreline(text[0], ParseDigits(parts[0]), ParseDigits(parts[1])))
      else None
  }

  lemma DigitsHaveNoDash(s: string)
    requires AllDigits(s)
    ensures '-' !in s
  {
    forall i | 0 <= i < |s|
      ensures s[i] != '-'
    {
      assert IsDigit(s[i]);
    }
  }

  /**
   * A label says who won from the tracked team's side and gives the tracked
   * team's goals first: it reads back as exactly that.
   */
  lemma ResultLabelRoundTrip(team: nat, opp: nat)
    ensures ResultLabel(Some(team), Some(opp)).Some?
    ensures DecodeResult(ResultLabel(Some(team), Some(opp)).value) == Some(Scoreline(Letter(team, opp), team, opp))
    ensures Letter(team, opp) == 'W' <==> team > opp
    ensures Letter(team, opp) == 'L' <==> team < opp
    ensures Letter(team, opp) == 'D' <==> team == opp
  {
    var a, b := NatToString(team), NatToString(opp);
    var text := ResultLabel(Some(team), Some(opp)).value;
    DigitsHaveNoDash(a);
    DigitsHaveNoDash(b);
    assert text[2..] == Join([a, b], '-');
    SplitJoin([a, b], '-');
    ParseNatToString(team);
    ParseNatToString(opp);
  }

  /** The same match read from the opponent's side: the converse letter and the score reversed. */
  lemma OpponentLabel(team: nat, opp: nat)
    ensures DecodeResult(ResultLabel(Some(opp), Some(team)).value)
         == Some(Scoreline(if team > opp then 'L' else if team < opp then 'W' else 'D', opp, team))
  {
    ResultLabelRoundTrip(opp, team);
  }

  // ---------------------------------------------------------------
  // Date
  // ---------------------------------------------------------------

  /** The first ten characters of a non-empty date string, otherwise "Unknown date". */
  function SnapshotDate(raw: Option<string>): (d: string)
    ensures TruthyText(raw) ==> d <= raw.value && |d| == if |raw.value| < 10 then |raw.value| else 10
    ensures !TruthyText(raw) ==> d == "Unknown date"
  {
    if TruthyText(raw) then Prefix(raw.value, 10) else "Unknown date"
  }

  lemma SnapshotDateExample()
    ensures SnapshotDate(Some("2025-11-08T19:00:00+00:00")) == "2025-11-08"
  {
  }

  // ---------------------------------------------------------------
  // The player's line in the participant list
  // ---------------------------------------------------------------

  datatype Stats = Stats(minutes: Option<int>, goals: Option<int>, assists: Option<int>)

  const NoStats := Stats(None, None, None)

  /** The index of the first participant whose player id is `player`, if any. */
  function FindParticipant(players: seq<Participant>, player: int): (k: Option<nat>)
    ensures k.None? ==> forall j :: 0 <= j < |players| ==> players[j].player != Some(player)
    ensures k.Some? ==> k.value < |players| && players[k.value].player == Some(player)
    ensures k.Some? ==> forall j :: 0 <= j < k.value ==> players[j].player != Some(player)
  {
    if players == [] then None
    else if players[0].player == Some(player) then Some(0)
    else
      match FindParticipant(players[1..], player)
      case None => None
      case Some(j) => Some(j + 1)
  }

  /**
   * Minutes, goals and assists of the first entry for `player` in the
   * first team block, read from its first statistics block; each is absent
   * when the service left it out, and all are absent when the player is
   * not listed or its entry has no statistics block.
   */
  function PlayerStats(blocks: seq<TeamBlock>, player: int): (s: Stats)
    ensures |blocks| == 0 ==> s == NoStats
    ensures |blocks| > 0 && (forall j :: 0 <= j < |blocks[0].players| ==> blocks[0].players[j].player != Some(player))
            ==> s == NoStats
    ensures |blocks| > 0 ==>
              forall j :: 0 <= j < |blocks[0].players| && blocks[0].players[j].player == Some(player)
                && (forall i :: 0 <= i < j ==> blocks[0].players[i].player != Some(player))
                && |blocks[0].players[j].statistics| > 0
                ==> var b := blocks[0].players[j].statistics[0];
                    s == Stats(b.minutes, b.goals, b.assists)
    ensures |blocks| > 0 ==>
              var k := FindParticipant(blocks[0].players, player);
              k.Some? && |blocks[0].players[k.value].statistics| == 0 ==> s == NoStats
  {
    if |blocks| == 0 then NoStats
    else
      match FindParticipant(blocks[0].players, player)
      case None => NoStats
      case Some(k) =>
        var entry := blocks[0].players[k];
        if |entry.statistics| == 0 then NoStats
        else Stats(entry.statistics[0].minutes, entry.statistics[0].goals, entry.statistics[0].assists)
  }

  // ---------------------------------------------------------------
  // The snapshot
  // ---------------------------------------------------------------

  /**
   * The snapshot as the script builds it. The assists it read are stored in
   * a block-local `assists` that shadows the one placed in the snapshot, so
   * the snapshot never carries assists.
   */
  function BuildSnapshot(f: Fixture, team: int, stats: Stats): (s: Snapshot)
    ensures s.assists == None && s.minutesPlayed == None
    ensures s.minutes == stats.minutes && s.goals == stats.goals
    ensures s.competition == f.league
  {
    var view := Orient(f, team);
    Snapshot(SnapshotDate(f.date), view.opponent.GetOr("Unknown opponent"), f.league,
             stats.minutes, None, stats.goals, None, ResultLabel(view.teamGoals, view.oppGoals))
  }

  /** The snapshot the extraction evidently meant to build: the same, with the assists read. */
  function IntendedSnapshot(f: Fixture, team: int, stats: Stats): (s: Snapshot)
    ensures s.assists == stats.assists
    ensures s.(assists := None) == BuildSnapshot(f, team, stats)
  {
    BuildSnapshot(f, team, stats).(assists := stats.assists)
  }

  /** A player credited with an assist in the participant list gets a snapshot without it. */
  lemma AssistsDropped(f: Fixture, team: int, stats: Stats)
    requires stats.assists == Some(1)
    ensures BuildSnapshot(f, team, stats).assists == None
    ensures IntendedSnapshot(f, team, stats).assists == Some(1)
  {
  }

  /**
   * The snapshot does not depend on whether the tracked team was listed
   * home or away.
   */
  lemma SnapshotIgnoresListing(f: Fixture, team: int, stats: Stats)
    requires ListedAs(f.home, team) && !ListedAs(f.away, team)
    ensures BuildSnapshot(Swap(f), team, stats) == BuildSnapshot(f, team, stats)
  {
    OrientationIgnoresListing(f, team);
  }

  /**
   * For a played fixture, the snapshot's result reads back as the tracked
   * team's letter and goals first: the home goals when it is listed home,
   * the away goals otherwise.
   */
  lemma SnapshotScoreline(f: Fixture, team: int, stats: Stats, home: nat, away: nat)
    requires f.goalsHome == Some(home) && f.goalsAway == Some(away)
    ensures BuildSnapshot(f, team, stats).result.Some?
    ensures ListedAs(f.home, team) ==>
      DecodeResult(BuildSnapshot(f, team, stats).result.value) == Some(Scoreline(Letter(home, away), home, away))
    ensures !ListedAs(f.home, team) ==>
      DecodeResult(BuildSnapshot(f, team, stats).result.value) == Some(Scoreline(Letter(away, home), away, home))
  {
    ResultLabelRoundTrip(home, away);
    ResultLabelRoundTrip(away, home);
  }

  /** A 1-3 home defeat is reported as a loss, and the same score away as a win. */
  lemma ScorelineExamples(f: Fixture, team: int, stats: Stats)
    requires f.goalsHome == Some(1) && f.goalsAway == Some(3)
    ensures ListedAs(f.home, team) ==> BuildSnapshot(f, team, stats).result == Some("L 1-3")
    ensures !ListedAs(f.home, team) ==> BuildSnapshot(f, team, stats).result == Some("W 3-1")
  {
    assert NatToString(1) == "1" && NatToString(3) == "3";
    assert ['L', ' '] + "1" + "-" + "3" == "L 1-3";
    assert ['W', ' '] + "3" + "-" + "1" == "W 3-1";
  }

  // ---------------------------------------------------------------
  // One player: fetchLastClubGameForPlayer
  // ---------------------------------------------------------------

  /** Whether the player has both identifiers the lookup needs. */
  predicate HasServiceIds(p: PlayerRecord) {
    Truthy(p.apiPlayerId) && Truthy(p.apiTeamId)
  }

  function LastClubGame(p: PlayerRecord, api: FixtureApi, currentYear: int): (r: Traced<Option<Snapshot>>)
    ensures !HasServiceIds(p) ==> r == Traced(Done(None), [])
    ensures |r.calls| <= 4
    ensures r.outcome.Done? && r.outcome.value.Some? ==> r.outcome.value.value.assists == None
  {
    if !HasServiceIds(p) then Traced(Done(None), [])
    else
      var team := p.apiTeamId.value;
      var chain := FixtureChain(api, team, currentYear);
      match chain.outcome
      case Aborted(status) => Traced(Aborted(status), chain.calls)
      case Done(None) => Traced(Done(None), chain.calls)
      case Done(Some(f)) =>
        if !Truthy(f.id) then Traced(Done(Some(BuildSnapshot(f, team, NoStats))), chain.calls)
        else
          var call := FixturePlayers(f.id.value, team);
          match api.players(f.id.value, team)
          case HttpError(status) => Traced(Aborted(status), chain.calls + [call])
          case Ok(blocks) =>
            Traced(Done(Some(BuildSnapshot(f, team, PlayerStats(blocks, p.apiPlayerId.value)))),
                   chain.calls + [call])
  }

  /**
   * When the chain finds a fixture, the snapshot describes that fixture;
   * minutes and goals are absent when the fixture has no id or the player
   * has no line in its participant list.
   */
  lemma SnapshotOfFoundFixture(p: PlayerRecord, api: FixtureApi, currentYear: int)
    requires HasServiceIds(p)
    requires FixtureChain(api, p.apiTeamId.value, currentYear).outcome.Done?
    requires FixtureChain(api, p.apiTeamId.value, currentYear).outcome.value.Some?
    ensures var f := FixtureChain(api, p.apiTeamId.value, currentYear).outcome.value.value;
      var r := LastClubGame(p, api, currentYear);
      var view := Orient(f, p.apiTeamId.value);
      && (r.outcome.Done? ==> r.outcome.value.Some?)
      && (r.outcome.Done? ==>
            var s := r.outcome.value.value;
            && s.date == SnapshotDate(f.date)
            && s.opponent == view.opponent.GetOr("Unknown opponent")
            && s.result == ResultLabel(view.teamGoals, view.oppGoals))
      && (!Truthy(f.id) ==> r.outcome.Done? && r.outcome.value.value.minutes == None
                            && r.outcome.value.value.goals == None)
      && (Truthy(f.id) && api.players(f.id.value, p.apiTeamId.value).Ok? ==>
            var blocks := api.players(f.id.value, p.apiTeamId.value).response;
            (|blocks| == 0 || forall j :: 0 <= j < |blocks[0].players| ==> blocks[0].players[j].player != p.apiPlayerId)
            ==> r.outcome.Done? && r.outcome.value.value.minutes == None
                && r.outcome.value.value.goals == None)
  {
  }

  /**
   * How one player's lookup follows the chain: a failed chain call aborts
   * it and an empty chain gives no snapshot, both with the chain's requests;
   * a fixture without an id gives the snapshot built without statistics and
   * no further request; for a fixture with an id, the participant list is
   * requested next, a failed request aborts, and otherwise the snapshot is
   * built from the player's line in that list.
   */
  lemma LastClubGameFollowsChain(p: PlayerRecord, api: FixtureApi, currentYear: int)
    requires HasServiceIds(p)
    ensures var team := p.apiTeamId.value;
      var chain := FixtureChain(api, team, currentYear);
      var r := LastClubGame(p, api, currentYear);
      && (chain.outcome.Aborted? ==> r == Traced(Aborted(chain.outcome.status), chain.calls))
      && (chain.outcome == Done(None) ==> r == Traced(Done(None), chain.calls))
      && (chain.outcome.Done? && chain.outcome.value.Some? && !Truthy(chain.outcome.value.value.id) ==>
            r == Traced(Done(Some(BuildSnapshot(chain.outcome.value.value, team, NoStats))), chain.calls))
      && (chain.outcome.Done? && chain.outcome.value.Some? && Truthy(chain.outcome.value.value.id) ==>
            var f := chain.outcome.value.value;
            var reply := api.players(f.id.value, team);
            && r.calls == chain.calls + [FixturePlayers(f.id.value, team)]
            && (reply.HttpError? ==> r.outcome == Aborted(reply.status))
            && (reply.Ok? ==>
                  var stats := PlayerStats(reply.response, p.apiPlayerId.value);
                  && r.outcome == Done(Some(BuildSnapshot(f, team, stats)))
                  && r.outcome.value.value.minutes == stats.minutes
                  && r.outcome.value.value.goals == stats.goals))
  {
  }

  /**
   * `fetchLastClubGameForPlayer`: the tiers reassign `fixture`; the
   * player's numbers are assigned in a block guarded by the fixture id.
   */
  method FetchLastClubGame(player: PlayerRecord, api: FixtureApi, currentYear: int)
    returns (lastGame: Attempt<Option<Snapshot>>, calls: seq<Request>)
    ensures Traced(lastGame, calls) == LastClubGame(player, api, currentYear)
  {
    if !Truthy(player.apiPlayerId) || !Truthy(player.apiTeamId) {
      return Done(None), [];
    }
    var team := player.apiTeamId.value;
    var fixture;
    fixture, calls := ResolveLastFixture(api, team, currentYear);
    if fixture.Aborted? {
      return Aborted(fixture.status), calls;
    }
    if fixture.value.None? {
      return Done(None), calls;
    }
    var f := fixture.value.value;
    var view := Orient(f, team);
    var result := ResultLabel(view.teamGoals, view.oppGoals);

    var minutes: Option<int> := None;
    var goalsScored: Option<int> := None;
    var assists: Option<int> := None;
    if Truthy(f.id) {
      var reply := api.players(f.id.value, team);
      calls := calls + [FixturePlayers(f.id.value, team)];
      if reply.HttpError? {
        return Aborted(reply.status), calls;
      }
      var stats := PlayerStats(reply.response, player.apiPlayerId.value);
      minutes := stats.minutes;
      goalsScored := stats.goals;
      var assists := stats.assists;  // a new local: the outer `assists` stays absent
    }

    var snapshot := Snapshot(SnapshotDate(f.date), view.opponent.GetOr("Unknown opponent"), f.league,
                             minutes, None, goalsScored, assists, result);
    lastGame := Done(Some(snapshot));
  }

  // ---------------------------------------------------------------
  // The run: main
  // ---------------------------------------------------------------

  /** The record with its stored snapshot replaced when a new one was built, unchanged otherwise. */
  function WithSnapshot(p: PlayerRecord, snapshot: Option<Snapshot>): (q: PlayerRecord)
    ensures q.(lastClubGame := p.lastClubGame) == p
    ensures q.lastClubGame == if snapshot.Some? then snapshot else p.lastClubGame
  {
    if snapshot.Some? then p.(lastClubGame := snapshot) else p
  }

  /** The whole run over the roster, in order; the first failed call aborts it. */
  function UpdateAll(players: seq<PlayerRecord>, api: FixtureApi, currentYear: int): (r: Traced<seq<PlayerRecord>>)
    ensures r.outcome.Done? ==> |r.outcome.value| == |players|
    ensures |r.calls| <= 4 * |players|
  {
    if |players| == 0 then Traced(Done([]), [])
    else
      var before := UpdateAll(players[..|players| - 1], api, currentYear);
      if before.outcome.Aborted? then before
      else
        var p := players[|players| - 1];
        var one := LastClubGame(p, api, currentYear);
        match one.outcome
        case Aborted(status) => Traced(Aborted(status), before.calls + one.calls)
        case Done(snapshot) => Traced(Done(before.outcome.value + [WithSnapshot(p, snapshot)]), before.calls + one.calls)
  }

  /** Once a prefix of the roster aborts, the run has aborted with it. */
  lemma {:induction false} UpdateAllAbortSticks(players: seq<PlayerRecord>, api: FixtureApi, currentYear: int, k: nat)
    requires k <= |players|
    requires UpdateAll(players[..k], api, currentYear).outcome.Aborted?
    ensures UpdateAll(players, api, currentYear) == UpdateAll(players[..k], api, currentYear)
  {
    if k == |players| {
      assert players[..k] == players;
    } else {
      var init := players[..|players| - 1];
      assert init[..k] == players[..k];
      UpdateAllAbortSticks(init, api, currentYear, k);
    }
  }

  /**
   * A completed run keeps the roster's length and order; record `i`
   * becomes record `i` with only `lastClubGame` replaced, and only when a
   * snapshot was built for it.
   */
  lemma {:induction false} UpdateAllShape(players: seq<PlayerRecord>, api: FixtureApi, currentYear: int)
    requires UpdateAll(players, api, currentYear).outcome.Done?
    ensures var out := UpdateAll(players, api, currentYear).outcome.value;
      && |out| == |players|
      && forall i :: 0 <= i < |players| ==>
           && LastClubGame(players[i], api, currentYear).outcome.Done?
           && out[i] == WithSnapshot(players[i], LastClubGame(players[i], api, currentYear).outcome.value)
           && out[i].(lastClubGame := players[i].lastClubGame) == players[i]
  {
    if |players| > 0 {
      var init := players[..|players| - 1];
      UpdateAllShape(init, api, currentYear);
      var out := UpdateAll(players, api, currentYear).outcome.value;
      forall i | 0 <= i < |players|
        ensures LastClubGame(players[i], api, currentYear).outcome.Done?
        ensures out[i] == WithSnapshot(players[i], LastClubGame(players[i], api, currentYear).outcome.value)
      {
        if i < |players| - 1 {
          assert players[i] == init[i];
        }
      }
    }
  }

  /** The requests of each record's lookup, one record after another in roster order. */
  function LookupCalls(players: seq<PlayerRecord>, api: FixtureApi, currentYear: int): seq<Request> {
    if |players| == 0 then []
    else LookupCalls(players[..|players| - 1], api, currentYear) + LastClubGame(players[|players| - 1], api, currentYear).calls
  }

  /**
   * The run completes exactly when no record's lookup aborts, and then it
   * has issued every record's requests in roster order.
   */
  lemma {:induction false} UpdateAllCompletes(players: seq<PlayerRecord>, api: FixtureApi, currentYear: int)
    ensures UpdateAll(players, api, currentYear).outcome.Done?
        <==> forall i :: 0 <= i < |players| ==> LastClubGame(players[i], api, currentYear).outcome.Done?
    ensures UpdateAll(players, api, currentYear).outcome.Done?
        ==> UpdateAll(players, api, currentYear).calls == LookupCalls(players, api, currentYear)
  {
    if |players| > 0 {
      var init := players[..|players| - 1];
      UpdateAllCompletes(init, api, currentYear);
      assert forall i :: 0 <= i < |init| ==> init[i] == players[i];
    }
  }

  /**
   * A run stops at the first record whose lookup aborts: it carries that
   * lookup's status, having issued the earlier records' requests and then
   * that lookup's.
   */
  lemma {:induction false} UpdateAllFirstAbort(players: seq<PlayerRecord>, api: FixtureApi, currentYear: int, k: nat)
    requires k < |players|
    requires forall i :: 0 <= i < k ==> LastClubGame(players[i], api, currentYear).outcome.Done?
    requires LastClubGame(players[k], api, currentYear).outcome.Aborted?
    ensures var one := LastClubGame(players[k], api, currentYear);
      UpdateAll(players, api, currentYear)
      == Traced(Aborted(one.outcome.status), LookupCalls(players[..k], api, currentYear) + one.calls)
  {
    var pre := players[..k + 1];
    assert pre[..k] == players[..k] && pre[k] == players[k];
    assert forall i :: 0 <= i < k ==> players[..k][i] == players[i];
    UpdateAllCompletes(players[..k], api, currentYear);
    UpdateAllAbortSticks(players, api, currentYear, k + 1);
  }

  /** The snapshot lookup reads only the identifiers, never the stored snapshot. */
  lemma LastClubGameIgnoresSnapshot(p: PlayerRecord, stored: Option<Snapshot>, api: FixtureApi, currentYear: int)
    ensures LastClubGame(p.(lastClubGame := stored), api, currentYear) == LastClubGame(p, api, currentYear)
  {
  }

  /**
   * Running the script again against an unchanged service issues the same
   * requests and writes the same roster.
   */
  lemma {:induction false} UpdateIdempotent(players: seq<PlayerRecord>, api: FixtureApi, currentYear: int)
    requires UpdateAll(players, api, currentYear).outcome.Done?
    ensures UpdateAll(UpdateAll(players, api, currentYear).outcome.value, api, currentYear)
         == UpdateAll(players, api, currentYear)
  {
    if |players| > 0 {
      var init := players[..|players| - 1];
      var p := players[|players| - 1];
      var before := UpdateAll(init, api, currentYear);
      var out := UpdateAll(players, api, currentYear).outcome.value;
      var snapshot := LastClubGame(p, api, currentYear).outcome.value;
      assert out == before.outcome.value + [WithSnapshot(p, snapshot)];
      assert out[..|out| - 1] == before.outcome.value;
      UpdateIdempotent(init, api, currentYear);
      LastClubGameIgnoresSnapshot(p, if snapshot.Some? then snapshot else p.lastClubGame, api, currentYear);
      assert WithSnapshot(p, snapshot) == p.(lastClubGame := if snapshot.Some? then snapshot else p.lastClubGame);
      assert WithSnapshot(WithSnapshot(p, snapshot), snapshot) == WithSnapshot(p, snapshot);
    }
  }

  /** A roster where no player has both identifiers is written back unchanged, without a single request. */
  lemma {:induction false} UpdateWithoutIds(players: seq<PlayerRecord>, api: FixtureApi, currentYear: int)
    requires forall i :: 0 <= i < |players| ==> !HasServiceIds(players[i])
    ensures UpdateAll(players, api, currentYear) == Traced(Done(players), [])
  {
    if |players| > 0 {
      var init := players[..|players| - 1];
      var p := players[|players| - 1];
      assert forall i :: 0 <= i < |init| ==> init[i] == players[i];
      UpdateWithoutIds(init, api, currentYear);
      assert LastClubGame(p, api, currentYear) == Traced(Done(None), []);
      assert init + [p] == players;
    }
  }

  /** `main`: the loop that pushes each record, updated or not, onto `updated`. */
  method UpdateLastGames(players: seq<PlayerRecord>, api: FixtureApi, currentYear: int)
    returns (written: Attempt<seq<PlayerRecord>>, calls: seq<Request>)
    ensures Traced(written, calls) == UpdateAll(players, api, currentYear)
  {
    var updated: seq<PlayerRecord> := [];
    calls := [];
    var i := 0;
    while i < |players|
      invariant 0 <= i <= |players|
      invariant UpdateAll(players[..i], api, currentYear) == Traced(Done(updated), calls)
    {
      var p := players[i];
      var lastGame, more := FetchLastClubGame(p, api, currentYear);
      calls := calls + more;
      assert players[..i + 1][..i] == players[..i];
      if lastGame.Aborted? {
        UpdateAllAbortSticks(players, api, currentYear, i + 1);
        return Aborted(lastGame.status), calls;
      }
      if lastGame.value.Some? {
        updated := updated + [p.(lastClubGame := lastGame.value)];
      } else {
        updated := updated + [p];
      }
      i := i + 1;
    }
    assert players[..i] == players;
    written := Done(updated);
  }
}
