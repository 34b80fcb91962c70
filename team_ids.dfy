/**
 * tools/fetch-api-ids.ts: give every record with a club a service team id,
 * searching the service by club name (through an override table) when the
 * record has none yet, and touching nothing else.
 */
module TeamIds {
  import opened Optional
  import opened Roster
  import opened Service

  /** Club names the service indexes under another name. */
  const TeamNameOverrides: map<string, string> := map[
    "OGC Nice" := "Nice",
    "U.S. Sassuolo Calcio" := "Sassuolo"
  ]

  /** The name searched for: the club's override when it has one, else the club name itself. */
  function SearchTerm(club: string): (term: string)
    ensures club !in TeamNameOverrides ==> term == club
    ensures term !in TeamNameOverrides
  {
    if club in TeamNameOverrides then TeamNameOverrides[club] else club
  }

  /**
   * The term searched for is the override when the club has one and the
   * club name verbatim otherwise; an override is never itself overridden,
   * so choosing the term twice changes nothing.
   */
  lemma SearchTermChoice(club: string)
    ensures club in TeamNameOverrides ==> SearchTerm(club) == TeamNameOverrides[club]
    ensures club !in TeamNameOverrides ==> SearchTerm(club) == club
    ensures SearchTerm(SearchTerm(club)) == SearchTerm(club)
    ensures SearchTerm("OGC Nice") == "Nice" && SearchTerm("U.S. Sassuolo Calcio") == "Sassuolo"
  {
  }

  /** One element of the `/teams?search=` response: `team.id`, `team.name`. */
  datatype TeamHit = TeamHit(id: int, name: string)

  type TeamSearchApi = string -> Reply<TeamHit>

  /** `findTeamIdByName`: the id of the first hit for the search term, none when there is no hit. */
  function FindTeamId(club: string, search: TeamSearchApi): (r: Traced<Option<int>>)
    ensures r.calls == [TeamSearch(SearchTerm(club))]
  {
    var term := SearchTerm(club);
    var reply := search(term);
    var outcome :=
      match reply
      case HttpError(status) => Aborted(status)
      case Ok(hits) => Done(if |hits| == 0 then None else Some(hits[0].id));
    Traced(outcome, [TeamSearch(term)])
  }

  /**
   * Not found exactly when the search lists nothing; otherwise the first
   * hit wins, whatever follows it.
   */
  lemma FirstHitWins(club: string, search: TeamSearchApi)
    ensures var reply := search(SearchTerm(club));
      var r := FindTeamId(club, search).outcome;
      && (r == Done(None) <==> reply == Ok([]))
      && (reply.Ok? && |reply.response| > 0 ==> r == Done(Some(reply.response[0].id)))
      && (reply.HttpError? ==> r == Aborted(reply.status))
  {
  }

  /**
   * The record with its team id and player id replaced by the given ones,
   * each only when one is given; all other fields are copied.
   */
  function MergeIds(p: PlayerRecord, teamId: Option<int>, playerId: Option<int>): (q: PlayerRecord)
    ensures q.(apiTeamId := p.apiTeamId, apiPlayerId := p.apiPlayerId) == p
    ensures q.apiTeamId == if teamId.Some? then teamId else p.apiTeamId
    ensures q.apiPlayerId == if playerId.Some? then playerId else p.apiPlayerId
  {
    var withTeam := if teamId.Some? then p.(apiTeamId := teamId) else p;
    if playerId.Some? then withTeam.(apiPlayerId := playerId) else withTeam
  }

  /** One iteration of the loop in `main`. */
  function BackfillRecord(p: PlayerRecord, search: TeamSearchApi): (r: Traced<PlayerRecord>)
    ensures r.calls == [] <==> !TruthyText(p.clubTeam) || p.apiTeamId.Some?
    ensures |r.calls| <= 1
    ensures r.outcome.Done? ==> r.outcome.value.apiPlayerId == p.apiPlayerId
    ensures TruthyText(p.clubTeam) && p.apiTeamId.None? && search(SearchTerm(p.clubTeam.value)).HttpError?
            ==> r.outcome == Aborted(search(SearchTerm(p.clubTeam.value)).status)
  {
    if !TruthyText(p.clubTeam) then Traced(Done(p), [])
    else
      var lookup := if p.apiTeamId.Some? then Traced(Done(p.apiTeamId), [])
                    else FindTeamId(p.clubTeam.value, search);
      match lookup.outcome
      case Aborted(status) => Traced(Aborted(status), lookup.calls)
      case Done(teamId) => Traced(Done(MergeIds(p, teamId, p.apiPlayerId)), lookup.calls)
  }

  /**
   * What one record becomes: it is passed through when it has no club or
   * already has a team id, and then nothing is searched; the player id is
   * never created or changed; the team id is set only from the first hit
   * of a search, and a record the search cannot resolve keeps every field.
   */
  lemma BackfillRecordSpec(p: PlayerRecord, search: TeamSearchApi)
    requires BackfillRecord(p, search).outcome.Done?
    ensures var r := BackfillRecord(p, search);
      var q := r.outcome.value;
      && q.apiPlayerId == p.apiPlayerId
      && q.(apiTeamId := p.apiTeamId) == p
      && (!TruthyText(p.clubTeam) || p.apiTeamId.Some? ==> q == p && r.calls == [])
      && (TruthyText(p.clubTeam) && p.apiTeamId.None? ==>
            var reply := search(SearchTerm(p.clubTeam.value));
            && r.calls == [TeamSearch(SearchTerm(p.clubTeam.value))]
            && (reply == Ok([]) ==> q == p)
            && (reply.Ok? && |reply.response| > 0 ==> q.apiTeamId == Some(reply.response[0].id)))
  {
    FirstHitWins(p.clubTeam.GetOr(""), search);
  }

  /** The whole run over the roster, in order; the first failed search aborts it. */
  function BackfillAll(players: seq<PlayerRecord>, search: TeamSearchApi): (r: Traced<seq<PlayerRecord>>)
    ensures r.outcome.Done? ==> |r.outcome.value| == |players|
    ensures |r.calls| <= |players|
  {
    if |players| == 0 then Traced(Done([]), [])
    else
      var before := BackfillAll(players[..|players| - 1], search);
      if before.outcome.Aborted? then before
      else
        var one := BackfillRecord(players[|players| - 1], search);
        match one.outcome
        case Aborted(status) => Traced(Aborted(status), before.calls + one.calls)
        case Done(q) => Traced(Done(before.outcome.value + [q]), before.calls + one.calls)
  }

  lemma {:induction false} BackfillAllAbortSticks(players: seq<PlayerRecord>, search: TeamSearchApi, k: nat)
    requires k <= |players|
    requires BackfillAll(players[..k], search).outcome.Aborted?
    ensures BackfillAll(players, search) == BackfillAll(players[..k], search)
  {
    if k == |players| {
      assert players[..k] == players;
    } else {
      var init := players[..|players| - 1];
      assert init[..k] == players[..k];
      BackfillAllAbortSticks(init, search, k);
    }
  }

  /** The requests of each record's backfill, one record after another in roster order. */
  function BackfillCalls(players: seq<PlayerRecord>, search: TeamSearchApi): seq<Request> {
    if |players| == 0 then []
    else BackfillCalls(players[..|players| - 1], search) + BackfillRecord(players[|players| - 1], search).calls
  }

  /**
   * The run completes exactly when no record's search fails, and then it
   * has issued every record's requests in roster order.
   */
  lemma {:induction false} BackfillAllCompletes(players: seq<PlayerRecord>, search: TeamSearchApi)
    ensures BackfillAll(players, search).outcome.Done?
        <==> forall i :: 0 <= i < |players| ==> BackfillRecord(players[i], search).outcome.Done?
    ensures BackfillAll(players, search).outcome.Done?
        ==> BackfillAll(players, search).calls == BackfillCalls(players, search)
  {
    if |players| > 0 {
      var init := players[..|players| - 1];
      BackfillAllCompletes(init, search);
      assert forall i :: 0 <= i < |init| ==> init[i] == players[i];
    }
  }

  /**
   * A run stops at the first record whose search fails: it carries that
   * status, having issued the earlier records' requests and then that
   * record's search.
   */
  lemma {:induction false} BackfillAllFirstAbort(players: seq<PlayerRecord>, search: TeamSearchApi, k: nat)
    requires k < |players|
    requires forall i :: 0 <= i < k ==> BackfillRecord(players[i], search).outcome.Done?
    requires BackfillRecord(players[k], search).outcome.Aborted?
    ensures var one := BackfillRecord(players[k], search);
      BackfillAll(players, search) == Traced(Aborted(one.outcome.status), BackfillCalls(players[..k], search) + one.calls)
  {
    var pre := players[..k + 1];
    assert pre[..k] == players[..k] && pre[k] == players[k];
    assert forall i :: 0 <= i < k ==> players[..k][i] == players[i];
    BackfillAllCompletes(players[..k], search);
    var one := BackfillRecord(players[k], search);
    assert BackfillAll(pre, search) == Traced(Aborted(one.outcome.status), BackfillCalls(players[..k], search) + one.calls);
    BackfillAllAbortSticks(players, search, k + 1);
  }

  /** A completed run keeps the roster's length and order and backfills record by record. */
  lemma {:induction false} BackfillAllShape(players: seq<PlayerRecord>, search: TeamSearchApi)
    requires BackfillAll(players, search).outcome.Done?
    ensures var out := BackfillAll(players, search).outcome.value;
      && |out| == |players|
      && forall i :: 0 <= i < |players| ==> BackfillRecord(players[i], search).outcome == Done(out[i])
  {
    if |players| > 0 {
      var init := players[..|players| - 1];
      BackfillAllShape(init, search);
      var out := BackfillAll(players, search).outcome.value;
      forall i | 0 <= i < |players|
        ensures BackfillRecord(players[i], search).outcome == Done(out[i])
      {
        if i < |players| - 1 {
          assert players[i] == init[i];
        }
      }
    }
  }

  /** Backfilling a record a second time changes nothing. */
  lemma BackfillRecordStable(p: PlayerRecord, search: TeamSearchApi)
    requires BackfillRecord(p, search).outcome.Done?
    ensures BackfillRecord(BackfillRecord(p, search).outcome.value, search).outcome
         == BackfillRecord(p, search).outcome
  {
    BackfillRecordSpec(p, search);
  }

  /** Running the script again against an unchanged service writes the same roster. */
  lemma {:induction false} BackfillIdempotent(players: seq<PlayerRecord>, search: TeamSearchApi)
    requires BackfillAll(players, search).outcome.Done?
    ensures BackfillAll(BackfillAll(players, search).outcome.value, search).outcome
         == BackfillAll(players, search).outcome
  {
    if |players| > 0 {
      var init := players[..|players| - 1];
      var p := players[|players| - 1];
      var before := BackfillAll(init, search);
      var q := BackfillRecord(p, search).outcome.value;
      var out := BackfillAll(players, search).outcome.value;
      assert out == before.outcome.value + [q];
      assert out[..|out| - 1] == before.outcome.value;
      BackfillIdempotent(init, search);
      BackfillRecordStable(p, search);
    }
  }

  /**
   * A roster whose every record lacks a club or already has a team id is
   * written back unchanged, without a single search.
   */
  lemma {:induction false} BackfillNothingToDo(players: seq<PlayerRecord>, search: TeamSearchApi)
    requires forall i :: 0 <= i < |players| ==> !TruthyText(players[i].clubTeam) || players[i].apiTeamId.Some?
    ensures BackfillAll(players, search) == Traced(Done(players), [])
  {
    if |players| > 0 {
      var init := players[..|players| - 1];
      var p := players[|players| - 1];
      BackfillNothingToDo(init, search);
      assert MergeIds(p, p.apiTeamId, p.apiPlayerId) == p;
      assert init + [p] == players;
    }
  }

  /** `main`: the loop that pushes every record, skipped or merged, onto `updated`. */
  method BackfillTeamIds(players: seq<PlayerRecord>, search: TeamSearchApi)
    returns (written: Attempt<seq<PlayerRecord>>, calls: seq<Request>)
    ensures Traced(written, calls) == BackfillAll(players, search)
  {
    var updated: seq<PlayerRecord> := [];
    calls := [];
    var i := 0;
    while i < |players|
      invariant 0 <= i <= |players|
      invariant BackfillAll(players[..i], search) == Traced(Done(updated), calls)
    {
      var p := players[i];
      assert players[..i + 1][..i] == players[..i];
      i := i + 1;
      if !TruthyText(p.clubTeam) {
        updated := updated + [p];
        continue;
      }
      // 1) the team id: the record's own, or the first search hit
      var teamId: Option<int>;
      if p.apiTeamId.Some? {
        teamId := p.apiTeamId;
      } else {
        var found := FindTeamId(p.clubTeam.value, search);
        calls := calls + found.calls;
        if found.outcome.Aborted? {
          BackfillAllAbortSticks(players, search, i);
          return Aborted(found.outcome.status), calls;
        }
        teamId := found.outcome.value;
      }
      // 2) the player id: only ever the one already there
      var playerId := p.apiPlayerId;
      updated := updated + [MergeIds(p, teamId, playerId)];
    }
    assert players[..i] == players;
    written := Done(updated);
  }
}
