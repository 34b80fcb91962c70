/**
 * The statistics service as the scripts see it. Each endpoint is a
 * function from its query to a reply; a reply is the `response` list of a
 * successful call or the HTTP status of a failed one, which makes `apiGet`
 * throw and ends the whole run.
 */
module Service {

  datatype Reply<T> = Ok(response: seq<T>) | HttpError(status: int)

  /** The requests the scripts issue, in the order they issue them. */
  datatype Request =
    | LastCompleted(team: int)             // /fixtures?team=..&last=1&status=FT
    | SeasonFixtures(team: int, season: int) // /fixtures?team=..&season=..
    | FixturePlayers(fixture: int, team: int) // /fixtures/players?fixture=..&team=..
    | TeamSearch(term: string)             // /teams?search=..

  /** What a step produces: its value, or the status of the failed call that aborted it. */
  datatype Attempt<T> = Done(value: T) | Aborted(status: int)

  /** A step's outcome together with the requests it issued. */
  datatype Traced<T> = Traced(outcome: Attempt<T>, calls: seq<Request>)
}
