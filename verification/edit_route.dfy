/** The edit-route screen: the add screen's two steps, except that fetching stops keeps or
    seeds the selection, and the route is replaced instead of recorded. */
module EditRoute {
  import opened Common
  import opened Backend
  import opened RouteScreen
  import opened Percentage
  import AddRoute

  /** The stored route the screen loaded, `routeData.data[0]`; a `null` stop reads as "". */
  datatype StoredRoute = StoredRoute(startedStop: string, endedStop: string)

  /** How `handleUpdateRoute` ends: a dialog, or the success dialog whose button opens the
      dashboard with the user's e-mail and id. */
  datatype UpdateOutcome = Alerted(alert: Alert) | Updated(alert: Alert, email: string, userUuid: string)

  const UpdateCrashed := Alert("Error", "Something went wrong while updating the route")
  const NothingUpdated := Alert("Error", "No route was updated. Please try again.")
  const UpdateSucceeded := Alert("Success", "Route updated successfully")

  /** The selection after a successful fetch: kept when both stops are chosen, otherwise
      replaced as a pair, from the stored route when there is one, else by the first and the
      last item. */
  function Select(picker: Picker, stored: Option<StoredRoute>, items: seq<StopItem>): (p: Picker)
    requires items != []
    ensures p.items == items
    ensures picker.stop1 != "" && picker.stop2 != "" ==> p.stop1 == picker.stop1 && p.stop2 == picker.stop2
    ensures (picker.stop1 == "" || picker.stop2 == "") && stored.Some? ==>
      p.stop1 == stored.value.startedStop && p.stop2 == stored.value.endedStop
    ensures (picker.stop1 == "" || picker.stop2 == "") && stored.None? ==>
      p.stop1 == items[0].value && p.stop2 == items[|items| - 1].value
  {
    if picker.stop1 == "" || picker.stop2 == "" then
      match stored
      case Some(route) => Picker(items, route.startedStop, route.endedStop)
      case None => Picker(items, items[0].value, items[|items| - 1].value)
    else
      Picker(items, picker.stop1, picker.stop2)
  }

  /** `fetchStops` of the edit screen. */
  function FetchStops(routeNumber: string, picker: Picker, stored: Option<StoredRoute>, reply: StopsReply): (r: Fetched)
    ensures routeNumber == "" ==> r == Fetched(picker, Some(InputRequired), [])
    ensures routeNumber != "" ==> r.requests == [StopsRequestFor(routeNumber)]
    ensures r.alert.None? <==> routeNumber != "" && LoadStops(reply).Ok?
    ensures routeNumber != "" && LoadStops(reply).Err? ==> r.alert == Some(LoadStops(reply).error)
    ensures r.alert.Some? ==> r.picker == picker
    ensures r.alert.None? ==> r.picker == Select(picker, stored, LoadStops(reply).value)
  {
    if routeNumber == "" then Fetched(picker, Some(InputRequired), [])
    else
      var sent := [StopsRequestFor(routeNumber)];
      match LoadStops(reply)
      case Err(alert) => Fetched(picker, Some(alert), sent)
      case Ok(items) => Fetched(Select(picker, stored, items), None, sent)
  }

  /** Fetching again with the same reply changes nothing more: the guard never clobbers a
      selection the first fetch made. */
  lemma FetchStopsIdempotent(routeNumber: string, picker: Picker, stored: Option<StoredRoute>, reply: StopsReply)
    ensures
      var once := FetchStops(routeNumber, picker, stored, reply);
      FetchStops(routeNumber, once.picker, stored, reply).picker == once.picker
  {
  }

  /** A kept selection need not be on the newly fetched line: after the route number changes,
      stops chosen for the old line survive a fetch for the new one. */
  lemma KeptSelectionMayBeStale()
    ensures
      var before := Picker([], "old-a", "old-b");
      var reply: StopsReply := Received(true, "", Some([RawStop("new-a", "")]));
      var after := FetchStops("88", before, None, reply).picker;
      after.stop1 == "old-a" && forall i :: 0 <= i < |after.items| ==> after.items[i].value != "old-a"
  {
  }

  /** With no choice yet and no stored route, the edit screen selects what the add screen does. */
  lemma SeedsLikeAddScreen(routeNumber: string, picker: Picker, reply: StopsReply)
    requires picker.stop1 == "" || picker.stop2 == ""
    ensures FetchStops(routeNumber, picker, None, reply) == AddRoute.FetchStops(routeNumber, picker, reply)
  {
  }

  /** `handleUpdateRoute`. `updated` carries the number of rows in the reply's `data` (0 when
      absent); a reply a run never asks for is ignored. */
  function HandleUpdateRoute(
    routeNumber: string, stop1: string, stop2: string,
    routeId: string, userEmail: Option<string>, userUuid: string,
    between: Reply<SpanBody>, updated: Reply<nat>): (r: Run<UpdateOutcome>)
    ensures routeNumber == "" || stop1 == "" || stop2 == "" ==> r == Run([], Alerted(MissingInfo))
    ensures routeNumber != "" && stop1 != "" && stop2 != "" ==>
      |r.requests| >= 1 && r.requests[0] == StopsBetweenRequest(routeNumber, stop1, stop2)
    // the update goes out exactly when the lookup succeeded, carrying its percentage as text
    ensures |r.requests| == 2 <==> routeNumber != "" && stop1 != "" && stop2 != "" && between.Accepted()
    ensures |r.requests| == 2 ==>
      r.requests[1] == UpdateRouteRequest(routeId,
        UpdatePayload(userEmail, routeNumber, NumberText(SpanPercentage(between.body)), stop1, stop2, userUuid))
    ensures |r.requests| <= 2
    // success needs both calls to succeed and at least one row to come back
    ensures r.outcome.Updated? <==> |r.requests| == 2 && updated.Accepted() && updated.body > 0
    ensures r.outcome.Updated? ==>
      r.outcome == Updated(UpdateSucceeded, if userEmail.Some? then userEmail.value else "", userUuid)
    ensures |r.requests| >= 1 && between.Refused() ==> r.outcome == Alerted(LookupRefused(between.error))
    ensures |r.requests| >= 1 && between.NoResponse? ==> r.outcome == Alerted(UpdateCrashed)
    ensures |r.requests| == 2 && updated.Refused() ==>
      r.outcome == Alerted(Alert("Error", if updated.error != "" then updated.error else "Failed to update route"))
    ensures |r.requests| == 2 && updated.NoResponse? ==> r.outcome == Alerted(UpdateCrashed)
    ensures |r.requests| == 2 && updated.Accepted() && updated.body == 0 ==> r.outcome == Alerted(NothingUpdated)
  {
    if routeNumber == "" || stop1 == "" || stop2 == "" then Run([], Alerted(MissingInfo))
    else
      var lookup := StopsBetweenRequest(routeNumber, stop1, stop2);
      match between
      case NoResponse => Run([lookup], Alerted(UpdateCrashed))
      case Received(ok, error, body) =>
        if !ok || error != "" then Run([lookup], Alerted(LookupRefused(error)))
        else
          var payload := UpdatePayload(userEmail, routeNumber, NumberText(SpanPercentage(body)), stop1, stop2, userUuid);
          var update := UpdateRouteRequest(routeId, payload);
          match updated
          case NoResponse => Run([lookup, update], Alerted(UpdateCrashed))
          case Received(ok', error', rows) =>
            if !ok' || error' != "" then Run([lookup, update], Alerted(Alert("Error", Or(error', "Failed to update route"))))
            else if rows == 0 then Run([lookup, update], Alerted(NothingUpdated))
            else
              // `userEmail || ""`: a missing address reads as ""
              var email := match userEmail case Some(e) => e case None => "";
              Run([lookup, update], Updated(UpdateSucceeded, email, userUuid))
  }

  /** A failed lookup ends the run: what the update endpoint would have answered plays no part. */
  lemma FailedLookupIgnoresUpdateReply(
    routeNumber: string, stop1: string, stop2: string,
    routeId: string, userEmail: Option<string>, userUuid: string,
    between: Reply<SpanBody>, updated1: Reply<nat>, updated2: Reply<nat>)
    requires !between.Accepted()
    ensures HandleUpdateRoute(routeNumber, stop1, stop2, routeId, userEmail, userUuid, between, updated1)
         == HandleUpdateRoute(routeNumber, stop1, stop2, routeId, userEmail, userUuid, between, updated2)
    ensures HandleUpdateRoute(routeNumber, stop1, stop2, routeId, userEmail, userUuid, between, updated1).outcome.Alerted?
  {
  }

  /** The two screens agree: given the same lookup reply, the text of the percentage the edit
      screen sends is the one the add screen sends, and it reads back as the same number. */
  lemma ScreensSendSamePercentage(
    routeNumber: string, stop1: string, stop2: string,
    routeId: string, userEmail: Option<string>, userUuid: string,
    between: Reply<SpanBody>, updated: Reply<nat>, added: Reply<()>)
    requires routeNumber != "" && stop1 != "" && stop2 != "" && between.Accepted()
    ensures
      var edit := HandleUpdateRoute(routeNumber, stop1, stop2, routeId, userEmail, userUuid, between, updated);
      var add := AddRoute.HandleAddRoute(routeNumber, stop1, stop2, userUuid, between, added);
      && edit.requests[1].payload.percentageTravelled == add.requests[1].percentage
      && ReadNumber(edit.requests[1].payload.percentageTravelled) == Some(SpanPercentage(between.body))
  {
    NumberTextRoundTrip(SpanPercentage(between.body));
  }
}
