/** What the add-route and edit-route screens share: the stop picker, the reading of a
    GET /api/tfl/stops reply into picker items, and the dialogs both screens raise. */
module RouteScreen {
  import opened Common
  import opened Backend

  /** One entry of the `stops` array of a GET /api/tfl/stops reply; `name` is "" when absent. */
  datatype RawStop = RawStop(id: string, name: string)

  /** One option of a stop drop-down; `caption` is its `label` field. */
  datatype StopItem = StopItem(caption: string, value: string)

  /** The screen state the stop flows read and write: the drop-down options and the two
      selected stop ids ("" while a selection is `null`). */
  datatype Picker = Picker(items: seq<StopItem>, stop1: string, stop2: string)

  /** One run of a screen's `fetchStops`: the picker afterwards, the dialog it raised if
      any, and the requests it sent. */
  datatype Fetched = Fetched(picker: Picker, alert: Option<Alert>, requests: seq<Request>)

  /** The reply to GET /api/tfl/stops; the body is `data.stops`, `None` when the field is absent. */
  type StopsReply = Reply<Option<seq<RawStop>>>

  const InputRequired := Alert("Input Required", "Please enter a route number")
  const NoStopsFound := Alert("No Stops Found", "Try a different route")
  const FetchCrashed := Alert("Error", "Something went wrong while fetching stops")
  const MissingInfo := Alert("Missing Info", "Please complete all fields")

  /** The stops request both screens send for a route number. */
  function StopsRequestFor(routeId: string): Request
  {
    StopsRequest(routeId, "outbound")
  }

  /** `data.stops.map(stop => ({ label: stop.name || stop.id, value: stop.id }))`: one item per
      stop, in order, valued by the id and labelled by the name, or by the id when the name is
      missing; an item's label is empty only when the stop has neither. */
  function ToItems(stops: seq<RawStop>): (r: seq<StopItem>)
    ensures |r| == |stops|
    ensures forall i :: 0 <= i < |stops| ==> r[i].value == stops[i].id
    ensures forall i :: 0 <= i < |stops| && stops[i].name != "" ==> r[i].caption == stops[i].name
    ensures forall i :: 0 <= i < |stops| && stops[i].name == "" ==> r[i].caption == stops[i].id
    ensures forall i :: 0 <= i < |stops| ==> (r[i].caption == "" <==> stops[i].name == "" && stops[i].id == "")
  {
    seq(|stops|, i requires 0 <= i < |stops| => StopItem(Or(stops[i].name, stops[i].id), stops[i].id))
  }

  /** The part of `fetchStops` after the request: the items to show, or the dialog to raise
      instead. Items keep the reply's order; each is labelled by the stop's name, or by its id
      when the name is missing. */
  function LoadStops(reply: StopsReply): (r: Result<seq<StopItem>, Alert>)
    ensures r.Ok? <==> reply.Accepted() && reply.body.Some? && reply.body.value != []
    ensures r.Ok? ==>
      var stops := reply.body.value;
      && |r.value| == |stops|
      && forall i :: 0 <= i < |stops| ==>
           && r.value[i].value == stops[i].id
           && r.value[i].caption == (if stops[i].name != "" then stops[i].name else stops[i].id)
    ensures reply.Refused() ==> r == Err(Alert("Error", if reply.error != "" then reply.error else "Unable to fetch stops"))
    ensures reply.NoResponse? || (reply.Accepted() && reply.body.None?) ==> r == Err(FetchCrashed)
    ensures reply.Accepted() && reply.body == Some([]) ==> r == Err(NoStopsFound)
  {
    match reply
    case NoResponse => Err(FetchCrashed)
    case Received(ok, error, body) =>
      if !ok || error != "" then Err(Alert("Error", Or(error, "Unable to fetch stops")))
      else
        match body
        case None => Err(FetchCrashed)
        case Some(stops) =>
          var items := ToItems(stops);
          if |items| == 0 then Err(NoStopsFound) else Ok(items)
  }

  /** The dialog a refused stops-between lookup raises, in both screens. */
  function LookupRefused(error: string): (a: Alert)
    ensures a.title == "Error"
    ensures error != "" ==> a.message == error
    ensures error == "" ==> a.message == "Failed to find stops between"
  {
    Alert("Error", Or(error, "Failed to find stops between"))
  }
}
