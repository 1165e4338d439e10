/** The add-route screen: fetch a line's stops, then look up the span between the chosen
    stops, turn it into a percentage and record the route. */
module AddRoute {
  import opened Common
  import opened Backend
  import opened RouteScreen
  import opened Percentage
  import TflApi

  /** How `handleAddRoute` ends: a dialog, or navigation to the dashboard. */
  datatype AddOutcome = Alerted(alert: Alert) | NavigatedToDashboard

  const AddCrashed := Alert("Error", "Something went wrong while adding the route")

  /** `fetchStops`: with a route number, ask for its outbound stops; on success show them
      and select the first and the last stop, whatever was selected before. */
  function FetchStops(routeId: string, picker: Picker, reply: StopsReply): (r: Fetched)
    ensures routeId == "" ==> r == Fetched(picker, Some(InputRequired), [])
    ensures routeId != "" ==> r.requests == [StopsRequestFor(routeId)]
    ensures r.alert.None? <==> routeId != "" && LoadStops(reply).Ok?
    ensures routeId != "" && LoadStops(reply).Err? ==> r.alert == Some(LoadStops(reply).error)
    ensures r.alert.Some? ==> r.picker == picker
    ensures r.alert.None? ==>
      var items := LoadStops(reply).value;
      && r.picker.items == items
      && r.picker.stop1 == items[0].value
      && r.picker.stop2 == items[|items| - 1].value
  {
    if routeId == "" then Fetched(picker, Some(InputRequired), [])
    else
      var sent := [StopsRequestFor(routeId)];
      match LoadStops(reply)
      case Err(alert) => Fetched(picker, Some(alert), sent)
      case Ok(items) => Fetched(Picker(items, items[0].value, items[|items| - 1].value), None, sent)
  }

  /** `handleAddRoute`. `userUuid` is the stored user id as the URL interpolates it; the
      replies are what the two endpoints answer, and a reply a run never asks for is ignored. */
  function HandleAddRoute(
    routeId: string, stop1: string, stop2: string, userUuid: string,
    between: Reply<SpanBody>, added: Reply<()>): (r: Run<AddOutcome>)
    ensures routeId == "" || stop1 == "" || stop2 == "" ==> r == Run([], Alerted(MissingInfo))
    ensures routeId != "" && stop1 != "" && stop2 != "" ==>
      |r.requests| >= 1 && r.requests[0] == StopsBetweenRequest(routeId, stop1, stop2)
    // the add request goes out exactly when the lookup succeeded, carrying its percentage
    ensures |r.requests| == 2 <==> routeId != "" && stop1 != "" && stop2 != "" && between.Accepted()
    ensures |r.requests| == 2 ==>
      r.requests[1] == AddRouteRequest(routeId, NumberText(SpanPercentage(between.body)), userUuid, stop1, stop2)
    ensures |r.requests| <= 2
    // the run reaches the dashboard exactly when both calls succeeded
    ensures r.outcome == NavigatedToDashboard <==> |r.requests| == 2 && added.Accepted()
    ensures |r.requests| >= 1 && between.Refused() ==> r.outcome == Alerted(LookupRefused(between.error))
    ensures |r.requests| >= 1 && between.NoResponse? ==> r.outcome == Alerted(AddCrashed)
    ensures |r.requests| == 2 && added.Refused() ==>
      r.outcome == Alerted(Alert("Error", if added.error != "" then added.error else "Failed to add route"))
    ensures |r.requests| == 2 && added.NoResponse? ==> r.outcome == Alerted(AddCrashed)
  {
    if routeId == "" || stop1 == "" || stop2 == "" then Run([], Alerted(MissingInfo))
    else
      var lookup := StopsBetweenRequest(routeId, stop1, stop2);
      match between
      case NoResponse => Run([lookup], Alerted(AddCrashed))
      case Received(ok, error, body) =>
        if !ok || error != "" then Run([lookup], Alerted(LookupRefused(error)))
        else
          var add := AddRouteRequest(routeId, NumberText(SpanPercentage(body)), userUuid, stop1, stop2);
          match added
          case NoResponse => Run([lookup, add], Alerted(AddCrashed))
          case Received(ok', error', _) =>
            if !ok' || error' != "" then Run([lookup, add], Alerted(Alert("Error", Or(error', "Failed to add route"))))
            else Run([lookup, add], NavigatedToDashboard)
  }

  /** A failed lookup ends the run: what the add endpoint would have answered plays no part. */
  lemma FailedLookupIgnoresAddReply(
    routeId: string, stop1: string, stop2: string, userUuid: string,
    between: Reply<SpanBody>, added1: Reply<()>, added2: Reply<()>)
    requires !between.Accepted()
    ensures HandleAddRoute(routeId, stop1, stop2, userUuid, between, added1)
         == HandleAddRoute(routeId, stop1, stop2, userUuid, between, added2)
    ensures HandleAddRoute(routeId, stop1, stop2, userUuid, between, added1).outcome.Alerted?
  {
  }

  /** End to end: when the lookup is answered with what GET /stops-between computed for the
      chosen stops, the route is recorded with a whole percentage from 0 to 100, never NaN. */
  lemma RecordedPercentageInRange(
    routeId: string, stop1: string, stop2: string, userUuid: string,
    data: TflApi.RouteSequence, added: Reply<()>)
    requires routeId != "" && stop1 != "" && stop2 != ""
    requires TflApi.StopsBetween(data, stop1, stop2).Ok?
    ensures
      var span := TflApi.StopsBetween(data, stop1, stop2).value;
      var between := Received(true, "", SpanBody(span.allStopIds, span.count));
      var r := HandleAddRoute(routeId, stop1, stop2, userUuid, between, added);
      && |r.requests| == 2
      && exists p :: 0 <= p <= 100 && r.requests[1].percentage == DecimalText(p)
  {
    var span := TflApi.StopsBetween(data, stop1, stop2).value;
    PercentageInRange(span.count, |span.allStopIds|);
    var p := RoundedPercentage(span.count, |span.allStopIds|).value;
    assert 0 <= p <= 100;
  }

  /** GET /stops and GET /stops-between read the same line: fed the stops GET /stops lists,
      the fetch shows them, and its default selection, the first and the last stop, is always
      accepted by GET /stops-between, starting at position 0; a line without stops ends in
      "No Stops Found". */
  lemma DefaultSelectionIsOnLine(routeId: string, picker: Picker, data: TflApi.RouteSequence)
    requires routeId != "" && data.stopPointSequences != []
    ensures
      var stops := TflApi.GetStops(routeId, "outbound", data).value.stops;
      var raw := seq(|stops|, i requires 0 <= i < |stops| => RawStop(stops[i].id, stops[i].name));
      var f := FetchStops(routeId, picker, Received(true, "", Some(raw)));
      && (stops == [] ==> f.alert == Some(NoStopsFound))
      && (stops != [] ==>
        && f.alert.None?
        && |f.picker.items| == |stops|
        && TflApi.StopsBetween(data, f.picker.stop1, f.picker.stop2).Ok?
        && TflApi.StopsBetween(data, f.picker.stop1, f.picker.stop2).value.fromIndex == 0)
  {
    var stops := data.stopPointSequences[0];
    if stops != [] {
      var ids := TflApi.StopIds(stops);
      assert ids[0] in ids && ids[|ids| - 1] in ids;
    }
  }

  /** A run with the replies the unit test mocks, after the first and the third stop of a
      three-stop line have been chosen: count 2 of 3 records 67 and then navigates. */
  lemma ThreeStopScenario(userUuid: string)
    ensures
      var between := Received(true, "", SpanBody(["stop1", "stop2", "stop3"], 2));
      var r := HandleAddRoute("87", "stop1", "stop3", userUuid, between, Received(true, "", ()));
      r.requests[1].percentage == "67" && r.outcome == NavigatedToDashboard
  {
    assert RoundedPercentage(2, 3) == Integral(67);
    assert Digits(67) == Digits(6) + [DigitChar(7)];
  }

  /** The unit test as written: it types a route number and presses "Add Route" without ever
      fetching stops, so both selections are still `null`; whatever the mocked replies, the run
      ends in "Missing Info" with nothing sent, and it never reaches the dashboard. */
  lemma AddTestWithoutSelection(userUuid: string, between: Reply<SpanBody>, added: Reply<()>)
    ensures HandleAddRoute("87", "", "", userUuid, between, added) == Run([], Alerted(MissingInfo))
    ensures HandleAddRoute("87", "", "", userUuid, between, added).outcome != NavigatedToDashboard
  {
  }
}
