/** The HTTP traffic between the screens and the application backend, reduced to values:
    the requests a flow issues and the replies it is given. */
module Backend {
  import opened Common

  /** What one `await fetch(...)` followed by `await response.json()` produced.
      `NoResponse`: one of the two promises rejected, so control went to the `catch` block.
      `Received`: `ok` is `response.ok`, `error` is the body's `error` field ("" when absent —
      JavaScript treats both as falsy), `body` the rest of the body the screen reads. */
  datatype Reply<+T> = NoResponse | Received(ok: bool, error: string, body: T)
  {
    /** The screens' `!response.ok || data.error` test. */
    predicate Refused()
    {
      Received? && (!ok || error != "")
    }

    /** A reply the screens go on with. */
    predicate Accepted()
    {
      Received? && ok && error == ""
    }
  }

  /** The body of a GET /api/tfl/stops-between reply after the screens' destructuring
      `const { all_stop_ids = [], count = 0 } = ...`. */
  datatype SpanBody = SpanBody(allStopIds: seq<string>, count: int)

  /** The JSON body the edit screen posts to /api/tfl/update-bus-route/{routeId};
      `userEmail` is `None` while the stored e-mail is still `null`. */
  datatype UpdatePayload = UpdatePayload(
    userEmail: Option<string>,
    busRoute: string,
    percentageTravelled: string,
    startedStop: string,
    endedStop: string,
    userUuid: string)

  /** A request a flow sends, with the values it interpolates into the URL or the body. */
  datatype Request =
    | StopsRequest(routeId: string, direction: string)
    | StopsBetweenRequest(routeId: string, fromStopId: string, toStopId: string)
    | AddRouteRequest(busRoute: string, percentage: string, userUuid: string, startedStop: string, endedStop: string)
    | UpdateRouteRequest(routeId: string, payload: UpdatePayload)
    | SignInRequest(email: string, password: string)
    | SignUpRequest(email: string, password: string)

  /** One run of a flow: the requests it sent, in order, and how it ended. */
  datatype Run<+O> = Run(requests: seq<Request>, outcome: O)
}
