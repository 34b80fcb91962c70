/**
 * The persisted roster: a JSON array of player records, each carrying the
 * curator's fields and the fields the two enrichment scripts own.
 */
module Roster {
  import opened Optional

  /** A JSON value, for the record fields no script reads or writes. */
  datatype Json =
    | JNull
    | JBool(b: bool)
    | JNumber(n: int)
    | JString(s: string)
    | JArray(items: seq<Json>)
    | JObject(fields: map<string, Json>)

  /**
   * The last-club-game snapshot stored on a record (`LastClubGameData`).
   * Optional fields are `None` when the key is absent from the JSON.
   */
  datatype Snapshot = Snapshot(
    date: string,
    opponent: string,
    competition: Option<string>,
    minutes: Option<int>,
    minutesPlayed: Option<int>,
    goals: Option<int>,
    assists: Option<int>,
    result: Option<string>)

  /**
   * One player record. `clubTeam`, `apiTeamId`, `apiPlayerId` and
   * `lastClubGame` are the keys the scripts read or write; every other key
   * (`id`, `name`, `position`, `jerseyNumber`, `status`, `lock`, ...) is in
   * `curated`, which no script touches.
   */
  datatype PlayerRecord = PlayerRecord(
    clubTeam: Option<string>,
    apiTeamId: Option<int>,
    apiPlayerId: Option<int>,
    lastClubGame: Option<Snapshot>,
    curated: map<string, Json>)

  /** JavaScript truthiness of an optional number: present and not 0. */
  predicate Truthy(n: Option<int>) {
    n.Some? && n.value != 0
  }

  /** JavaScript truthiness of an optional string: present and not empty. */
  predicate TruthyText(s: Option<string>) {
    s.Some? && s.value != ""
  }
}
